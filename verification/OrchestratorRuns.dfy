/**
 * Interleaved runs of the orchestrator over one shared chain. Each lock acquisition is one step:
 * a request is drafted (after its snapshot, for a suggestion), then reads the head, then appends.
 */
module OrchestratorRuns {
  import opened Wrappers
  import opened Lists
  import opened Canonical
  import opened AuditText
  import opened AuditChain
  import opened Precedents
  import opened G = Guardrails
  import opened Orchestrator

  /** What does not change during a run. */
  datatype World = World(cfg: Config, policy: Policy, codec: Codec)

  /** A request to decide, or, with the precedents that its snapshot gave, to suggest. */
  datatype Ask = Ask(e: Event, instruction: string, reply: Result<Response>, precedents: Option<seq<Resolved>>)

  function PlanFor(w: World, ask: Ask): Result<Plan> {
    match ask.precedents
    case None => PlanDecide(w.cfg, w.policy, ask.e, ask.instruction, ask.reply)
    case Some(matched) => PlanSuggest(w.cfg, w.policy, ask.e, ask.instruction, matched, ask.reply)
  }

  /** `seen` is how many records the chain held when the head was read; `at` is where the record went. */
  datatype Task =
    | Drafted(ask: Ask, plan: Plan)
    | HeadRead(ask: Ask, plan: Plan, prev: string, seen: nat)
    | Done(ask: Ask, plan: Plan, dec: Decision, seen: nat, at: Option<nat>)

  datatype State = State(records: seq<Record>, tasks: map<nat, Task>)

  datatype Op =
    | StartDecide(t: nat, e: Event, instruction: string, reply: Result<Response>)
    | StartSuggest(t: nat, e: Event, instruction: string, max: int, matched: seq<Resolved>, reply: Result<Response>)
    | ReadHead(t: nat)
    | Commit(t: nat, now: Utc)
    | OperatorAction(decisionID: string, operatorID: string, action: string, annotation: string, now: Utc)
    | OtherRecord(kind: string, payload: Option<string>, now: Utc)

  const CITING := "decision_with_precedents"
  const EMPTY := State([], map[])

  function AppendTo(w: World, records: seq<Record>, kind: string, payload: Option<string>, now: Utc): Result<Record> {
    NewRecord(w.codec, |records| % TWO64, PrevOf(records, |records|), kind, payload, now)
  }

  function Grown(records: seq<Record>, res: Result<Record>): seq<Record> {
    if res.Ok? then records + [res.value] else records
  }

  function Draft(w: World, s: State, t: nat, ask: Ask): State {
    var plan := PlanFor(w, ask);
    if t in s.tasks || plan.Err? then s else s.(tasks := s.tasks[t := Drafted(ask, plan.value)])
  }

  /** Steps that are not possible leave the state as it is. */
  ghost function Step(w: World, s: State, op: Op): State {
    match op
    case StartDecide(t, e, instruction, reply) => Draft(w, s, t, Ask(e, instruction, reply, None))
    case StartSuggest(t, e, instruction, max, matched, reply) =>
      if !IsAnswer(w.cfg.reader, s.records, CriteriaFor(w.cfg, e), max, matched) then s
      else Draft(w, s, t, Ask(e, instruction, reply, Some(matched)))
    case ReadHead(t) =>
      if t !in s.tasks || !s.tasks[t].Drafted? then s
      else
        var head := HeadRead(s.tasks[t].ask, s.tasks[t].plan, PrevOf(s.records, |s.records|), |s.records|);
        s.(tasks := s.tasks[t := head])
    case Commit(t, now) =>
      if t !in s.tasks || !s.tasks[t].HeadRead? then s
      else
        var task := s.tasks[t];
        var res := AppendTo(w, s.records, task.plan.kind, w.cfg.json.encode(task.plan.entry), now);
        State(Grown(s.records, res),
              s.tasks[t := Done(task.ask, task.plan, Audited(task.plan.draft, task.prev, res), task.seen,
                                if res.Ok? then Some(|s.records|) else None)])
    case OperatorAction(decisionID, operatorID, action, annotation, now) =>
      if action !in ["accept", "override", "annotate"] then s
      else
        var entry := Acted(decisionID, operatorID, action, annotation, w.cfg.tenant);
        s.(records := Grown(s.records, AppendTo(w, s.records, "operator_action", w.cfg.json.encode(entry), now)))
    case OtherRecord(kind, payload, now) =>
      if kind == CITING then s
      else s.(records := Grown(s.records, AppendTo(w, s.records, kind, payload, now)))
  }

  ghost function Run(w: World, ops: seq<Op>): State {
    if |ops| == 0 then EMPTY else Step(w, Run(w, ops[..|ops|-1]), ops[|ops|-1])
  }

  // ---- What a plan records ----

  /** The audit entry tells what the draft tells. */
  ghost predicate EntryTells(entry: AuditEntry, d: Decision) {
    match entry
    case Decided(eventID, _, _, _, _, provider, promptHash, response, status, operatorReview) =>
      && eventID == d.eventID && provider == d.provider && promptHash == d.promptHash && response == d.response
      && status == d.guardrails == "pass" && operatorReview == d.operatorReview
    case DecidedWithPrecedents(decided, _) => EntryTells(decided, d)
    case Refused(eventID, _, response, provider, promptHash, _) =>
      && eventID == d.eventID && provider == d.provider && promptHash == d.promptHash
      && d.response == (if response.Some? then response.value else NO_RESPONSE)
    case RefusedWithPrecedents(refused, _, _, _, status, _) => EntryTells(refused, d) && status == d.guardrails
    case Acted(_, _, _, _, _) => false
  }

  /** The text that the guardrails check, from its two parts. */
  ghost function ContextFor(w: World, ask: Ask): string {
    if ask.precedents.None? then w.cfg.contextOf(ask.e) else w.cfg.contextWith(ask.e, ask.precedents.value)
  }

  ghost function InstructionFor(w: World, ask: Ask): string {
    if ask.precedents.Some? && ask.instruction == "" then w.cfg.defaultInstruction else ask.instruction
  }

  ghost function CheckedText(w: World, ask: Ask): string { ContextFor(w, ask) + "\n" + InstructionFor(w, ask) }

  /** Exactly how the guardrails and the model dispose of a request, and what the decision then carries. */
  ghost predicate Disposed(w: World, ask: Ask, d: Decision) {
    var admitted := InputError(w.policy, CheckedText(w, ask)).None?;
    && (d.guardrails == "rejected_input" <==> !admitted)
    && (d.guardrails == "provider_error" <==> admitted && ask.reply.Err?)
    && (d.guardrails == "rejected_output" <==>
          admitted && ask.reply.Ok? && OutputError(w.policy, ask.reply.value).Some?)
    && (d.guardrails == "pass" <==> admitted && ask.reply.Ok? && OutputError(w.policy, ask.reply.value).None?)
    && (d.guardrails == "pass" ==> d.operatorReview == ask.reply.value.requiresReview)
    && (d.guardrails != "pass" ==> d.operatorReview)
    && d.response == (if admitted && ask.reply.Ok? then ask.reply.value else NO_RESPONSE)
  }

  /** The decision names the event, the provider and the prompt. */
  ghost predicate Identified(w: World, ask: Ask, d: Decision) {
    && d.eventID == ask.e.eventID && w.cfg.provider == Some(d.provider)
    && d.promptHash == w.cfg.sha256(ContextFor(w, ask) + "\0" + InstructionFor(w, ask))
  }

  /** The entry is about the event and its tenant; what `Decide` refuses is filed under the configured tenant. */
  ghost predicate About(w: World, ask: Ask, entry: AuditEntry) {
    var e := ask.e;
    match entry
    case Decided(_, eventType, sourceID, severity, tenant, _, _, _, _, _) =>
      eventType == e.eventType && sourceID == e.sourceID && severity == e.severity && Owns(w.cfg, e, tenant)
    case DecidedWithPrecedents(decided, _) => decided.Decided? && About(w, ask, decided)
    case Refused(_, _, _, _, _, tenant) => ask.precedents.None? && tenant == w.cfg.tenant
    case RefusedWithPrecedents(refused, eventType, sourceID, severity, _, count) =>
      && eventType == e.eventType && sourceID == e.sourceID && severity == e.severity
      && refused.Refused? && Owns(w.cfg, e, refused.tenant)
      && ask.precedents.Some? && count == |ask.precedents.value|
    case Acted(_, _, _, _, _) => false
  }

  /** The record's kind says which request it was, or how it was rejected. */
  ghost predicate KindFits(ask: Ask, plan: Plan) {
    var d := plan.draft;
    && (if d.guardrails == "pass" then plan.kind == if ask.precedents.None? then "decision" else CITING
        else plan.kind == "decision_" + d.guardrails && plan.kind != CITING)
    && (plan.kind == CITING ==>
          && ask.precedents.Some? && plan.entry.DecidedWithPrecedents?
          && plan.entry.precedentHashes == PrecedentHashes(ask.precedents.value))
  }

  ghost predicate PlanSound(w: World, ask: Ask, plan: Plan) {
    && Disposed(w, ask, plan.draft) && Identified(w, ask, plan.draft)
    && EntryTells(plan.entry, plan.draft) && About(w, ask, plan.entry) && KindFits(ask, plan)
  }

  /** A request is planned unless there is no provider or the event is not valid, and every plan is sound. */
  lemma PlansAreSound(w: World, ask: Ask)
    ensures PlanFor(w, ask).Err? <==> w.cfg.provider.None? || ask.e.Validate().Some?
    ensures PlanFor(w, ask).Ok? ==> PlanSound(w, ask, PlanFor(w, ask).value)
  {
    if PlanFor(w, ask).Ok? {
      if ask.precedents.None? {
        DecisionSound(w, ask, PlanFor(w, ask).value);
      } else {
        SuggestionSound(w, ask, PlanFor(w, ask).value);
      }
    }
  }

  /** Review is waived only for a reply that passed, with a confidence in [0, 1] and at or above the floor. */
  lemma UnreviewedIsConfident(w: World, ask: Ask, d: Decision)
    requires Disposed(w, ask, d) && !d.operatorReview
    ensures d.guardrails == "pass" && ask.reply == Ok(d.response)
    ensures 0.0 <= d.response.confidence <= 1.0 && d.response.confidence >= w.policy.minConfidence
  {
    OutputAccepted(w.policy, ask.reply.value);
  }

  lemma DraftDisposed(w: World, ask: Ask, d: Decision)
    requires w.cfg.provider.Some?
    requires d == DraftOf(w.cfg.provider.value, ask.e.eventID,
                          PromptHash(w.cfg, ContextFor(w, ask), InstructionFor(w, ask)),
                          Judge(w.policy, CheckedText(w, ask), ask.reply))
    ensures Disposed(w, ask, d) && Identified(w, ask, d)
  {
    VerdictExactly(w.policy, CheckedText(w, ask), ask.reply);
    StatusKinds(w.policy, CheckedText(w, ask), ask.reply);
    assert "pass" !in ["rejected_input", "provider_error", "rejected_output"];
  }

  lemma DecisionSound(w: World, ask: Ask, plan: Plan)
    requires ask.precedents.None? && PlanFor(w, ask) == Ok(plan)
    ensures PlanSound(w, ask, plan)
  {
    DraftDisposed(w, ask, plan.draft);
    StatusKinds(w.policy, CheckedText(w, ask), ask.reply);
  }

  lemma SuggestionSound(w: World, ask: Ask, plan: Plan)
    requires ask.precedents.Some? && PlanFor(w, ask) == Ok(plan)
    ensures PlanSound(w, ask, plan)
  {
    DraftDisposed(w, ask, plan.draft);
    StatusKinds(w.policy, CheckedText(w, ask), ask.reply);
    SuggestionEntry(w, ask, plan);
  }

  lemma SuggestionEntry(w: World, ask: Ask, plan: Plan)
    requires ask.precedents.Some? && PlanFor(w, ask) == Ok(plan)
    ensures EntryTells(plan.entry, plan.draft) && About(w, ask, plan.entry)
  {
  }

  /** No rejection is recorded under the kind that cites precedents. */
  lemma StatusKinds(policy: Policy, input: string, reply: Result<Response>)
    ensures
      var v := Judge(policy, input, reply);
      v.Rejected? ==>
        v.status in ["rejected_input", "provider_error", "rejected_output"] && "decision_" + v.status != CITING
  {
    var v := Judge(policy, input, reply);
    if v.Rejected? {
      assert ("decision_" + v.status)[9] == v.status[0];
      assert CITING[9] == 'w';
    }
  }

  // ---- Every run: the chain, and who owns which record ----

  /** A finished decision owns the record at `at`, and its AuditChainPrev was the head some time before. */
  ghost predicate Recorded(w: World, records: seq<Record>, plan: Plan, dec: Decision, seen: nat, at: Option<nat>) {
    && seen <= |records| && dec.auditChainPrev == PrevOf(records, seen)
    && dec == plan.draft.(auditChainPrev := dec.auditChainPrev, auditChainHash := dec.auditChainHash)
    && match at
       case None => dec.auditChainHash == ""
       case Some(i) =>
         && seen <= i < |records|
         && records[i].kind == plan.kind && w.cfg.json.encode(plan.entry) == Some(records[i].payload)
         && records[i].hash == dec.auditChainHash && records[i].prevHash == PrevOf(records, i)
  }

  ghost predicate TaskSound(w: World, records: seq<Record>, task: Task) {
    && PlanFor(w, task.ask) == Ok(task.plan)
    && match task
       case Drafted(_, _) => true
       case HeadRead(_, _, prev, seen) => seen <= |records| && prev == PrevOf(records, seen)
       case Done(_, plan, dec, seen, at) => Recorded(w, records, plan, dec, seen, at)
  }

  ghost predicate OwnRecords(tasks: map<nat, Task>) {
    forall t, u :: t in tasks && u in tasks && t != u && tasks[t].Done? && tasks[u].Done? && tasks[t].at.Some? ==>
      tasks[t].at != tasks[u].at
  }

  /** Sequences count the records, and wrap as the source's counter does. */
  ghost predicate Numbered(records: seq<Record>) {
    forall i :: 0 <= i < |records| ==> records[i].sequence == i % TWO64
  }

  ghost predicate Inv(w: World, s: State) {
    && Linked(w.codec, s.records) && Numbered(s.records)
    && (forall t :: t in s.tasks ==> TaskSound(w, s.records, s.tasks[t]))
    && OwnRecords(s.tasks)
  }

  lemma TaskStaysSound(w: World, records: seq<Record>, r: Record, task: Task)
    requires TaskSound(w, records, task)
    ensures TaskSound(w, records + [r], task)
  {
    assert forall i :: 0 <= i <= |records| ==> PrevOf(records + [r], i) == PrevOf(records, i);
  }

  /** What `Append` writes on success. */
  lemma Appended(w: World, records: seq<Record>, kind: string, payload: Option<string>, now: Utc)
    requires Linked(w.codec, records)
    ensures
      var res := AppendTo(w, records, kind, payload, now);
      res.Ok? ==>
        && Linked(w.codec, records + [res.value])
        && res.value.kind == kind && payload == Some(res.value.payload)
        && res.value.prevHash == PrevOf(records, |records|) && res.value.sequence == |records| % TWO64
  {
    var res := AppendTo(w, records, kind, payload, now);
    if res.Ok? {
      ExtendsLinked(w.codec, records, res.value);
    }
  }

  lemma AppendKeepsInv(w: World, s: State, kind: string, payload: Option<string>, now: Utc)
    requires Inv(w, s)
    ensures Inv(w, s.(records := Grown(s.records, AppendTo(w, s.records, kind, payload, now))))
  {
    var res := AppendTo(w, s.records, kind, payload, now);
    Appended(w, s.records, kind, payload, now);
    if res.Ok? {
      forall t | t in s.tasks
        ensures TaskSound(w, s.records + [res.value], s.tasks[t])
      {
        TaskStaysSound(w, s.records, res.value, s.tasks[t]);
      }
    }
  }

  /** The request's own part of a commit. */
  lemma CommittedTask(w: World, records: seq<Record>, task: Task, now: Utc)
    requires Linked(w.codec, records) && TaskSound(w, records, task) && task.HeadRead?
    ensures
      var res := AppendTo(w, records, task.plan.kind, w.cfg.json.encode(task.plan.entry), now);
      var at := if res.Ok? then Some(|records|) else None;
      Recorded(w, Grown(records, res), task.plan, Audited(task.plan.draft, task.prev, res), task.seen, at)
  {
    var payload := w.cfg.json.encode(task.plan.entry);
    var res := AppendTo(w, records, task.plan.kind, payload, now);
    Appended(w, records, task.plan.kind, payload, now);
    assert PrevOf(Grown(records, res), task.seen) == PrevOf(records, task.seen);
  }

  /** The records that finished requests own are in the chain already, so the next one is nobody's yet. */
  lemma PositionsTaken(w: World, s: State)
    requires Inv(w, s)
    ensures forall u :: u in s.tasks && s.tasks[u].Done? && s.tasks[u].at.Some? ==> s.tasks[u].at.value < |s.records|
  {
    forall u | u in s.tasks && s.tasks[u].Done? && s.tasks[u].at.Some?
      ensures s.tasks[u].at.value < |s.records|
    {
      assert TaskSound(w, s.records, s.tasks[u]);
    }
  }

  lemma OwnRecordsAfter(tasks: map<nat, Task>, t: nat, task: Task, n: nat)
    requires OwnRecords(tasks) && task.Done? && (task.at.Some? ==> task.at.value == n)
    requires forall u :: u in tasks && tasks[u].Done? && tasks[u].at.Some? ==> tasks[u].at.value < n
    ensures OwnRecords(tasks[t := task])
  {
  }

  lemma CommitKeepsInv(w: World, s: State, t: nat, now: Utc)
    requires Inv(w, s) && t in s.tasks && s.tasks[t].HeadRead?
    ensures Inv(w, Step(w, s, Commit(t, now)))
  {
    var task := s.tasks[t];
    var next := Step(w, s, Commit(t, now));
    AppendKeepsInv(w, s, task.plan.kind, w.cfg.json.encode(task.plan.entry), now);
    CommittedTask(w, s.records, task, now);
    PositionsTaken(w, s);
    OwnRecordsAfter(s.tasks, t, next.tasks[t], |s.records|);
  }

  lemma ReadHeadKeepsInv(w: World, s: State, t: nat)
    requires Inv(w, s)
    ensures Inv(w, Step(w, s, ReadHead(t)))
    ensures Step(w, s, ReadHead(t)).records == s.records
  {
    if t in s.tasks { assert TaskSound(w, s.records, s.tasks[t]); }
  }

  lemma DraftKeepsInv(w: World, s: State, t: nat, ask: Ask)
    requires Inv(w, s)
    ensures Inv(w, Draft(w, s, t, ask)) && Draft(w, s, t, ask).records == s.records
  {
  }

  lemma StepKeepsInv(w: World, s: State, op: Op)
    requires Inv(w, s)
    ensures Inv(w, Step(w, s, op))
    ensures s.records <= Step(w, s, op).records
  {
    match op
    case StartDecide(t, e, instruction, reply) =>
      DraftKeepsInv(w, s, t, Ask(e, instruction, reply, None));
    case StartSuggest(t, e, instruction, _, matched, reply) =>
      DraftKeepsInv(w, s, t, Ask(e, instruction, reply, Some(matched)));
    case ReadHead(t) =>
      ReadHeadKeepsInv(w, s, t);
    case Commit(t, now) =>
      if t in s.tasks && s.tasks[t].HeadRead? { CommitKeepsInv(w, s, t, now); }
    case OperatorAction(decisionID, operatorID, action, annotation, now) =>
      AppendKeepsInv(w, s, "operator_action",
                     w.cfg.json.encode(Acted(decisionID, operatorID, action, annotation, w.cfg.tenant)), now);
    case OtherRecord(kind, payload, now) =>
      AppendKeepsInv(w, s, kind, payload, now);
  }

  lemma {:induction false} EveryRunKeepsInv(w: World, ops: seq<Op>)
    ensures Inv(w, Run(w, ops))
  {
    if |ops| > 0 {
      EveryRunKeepsInv(w, ops[..|ops|-1]);
      StepKeepsInv(w, Run(w, ops[..|ops|-1]), ops[|ops|-1]);
    }
  }

  /** The chain always verifies, and a longer run only extends it. */
  lemma {:induction false} ChainOnlyGrows(w: World, ops: seq<Op>, n: nat)
    requires n <= |ops|
    ensures Linked(w.codec, Run(w, ops).records) && Numbered(Run(w, ops).records)
    ensures Run(w, ops[..n]).records <= Run(w, ops).records
    decreases |ops| - n
  {
    EveryRunKeepsInv(w, ops);
    if n < |ops| {
      EveryRunKeepsInv(w, ops[..n]);
      StepKeepsInv(w, Run(w, ops[..n]), ops[n]);
      assert ops[..n+1][..n] == ops[..n];
      ChainOnlyGrows(w, ops, n + 1);
    } else {
      assert ops[..n] == ops;
    }
  }

  /**
   * Every finished request owns one record of its own, which tells what the returned decision tells, of the
   * kind that the request and its status call for. Its AuditChainPrev is the head at some moment before that
   * record, and the record's PrevHash if nothing intervened.
   */
  lemma FinishedRequestsOwnRecords(w: World, ops: seq<Op>, t: nat)
    requires t in Run(w, ops).tasks && Run(w, ops).tasks[t].Done?
    ensures
      var s := Run(w, ops);
      var task := s.tasks[t];
      && PlanFor(w, task.ask) == Ok(task.plan) && PlanSound(w, task.ask, task.plan)
      && Recorded(w, s.records, task.plan, task.dec, task.seen, task.at)
      && EntryTells(task.plan.entry, task.dec) && Disposed(w, task.ask, task.dec) && Identified(w, task.ask, task.dec)
      && (!task.dec.operatorReview ==>
            && task.dec.guardrails == "pass" && task.ask.reply == Ok(task.dec.response)
            && 0.0 <= task.dec.response.confidence <= 1.0
            && task.dec.response.confidence >= w.policy.minConfidence)
      && (task.at == Some(task.seen) ==> task.dec.auditChainPrev == s.records[task.seen].prevHash)
      && forall u :: u in s.tasks && u != t && s.tasks[u].Done? && task.at.Some? ==> s.tasks[u].at != task.at
  {
    EveryRunKeepsInv(w, ops);
    var task := Run(w, ops).tasks[t];
    assert TaskSound(w, Run(w, ops).records, task);
    PlansAreSound(w, task.ask);
    RecordsIgnoresHashes(task.plan.entry, task.plan.draft, task.dec);
    if !task.dec.operatorReview { UnreviewedIsConfident(w, task.ask, task.dec); }
  }

  lemma {:induction false} RecordsIgnoresHashes(entry: AuditEntry, d: Decision, e: Decision)
    requires EntryTells(entry, d)
    requires e == d.(auditChainPrev := e.auditChainPrev, auditChainHash := e.auditChainHash)
    ensures EntryTells(entry, e)
  {
    match entry
    case DecidedWithPrecedents(decided, _) => RecordsIgnoresHashes(decided, d, e);
    case RefusedWithPrecedents(refused, _, _, _, _, _) => RecordsIgnoresHashes(refused, d, e);
    case _ =>
  }

  /** Two records of a verified chain with one hash exhibit a collision. */
  lemma SharedHashCollides(codec: Codec, records: seq<Record>, i: nat, j: nat)
    requires Sound(codec) && Linked(codec, records)
    requires i < j < |records| && records[i].hash == records[j].hash
    ensures LogsCollide(codec, records, records)
  {
    var c := FindCollision(codec, records, i, records, j);
    assert TextsCollide(codec, records[c.value.0], records[c.value.1]);
  }

  /** The heads before two different records of a verified chain differ, or the chain exhibits a collision. */
  lemma LaterPrevDiffers(codec: Codec, records: seq<Record>, i: nat, j: nat)
    requires Sound(codec) && Linked(codec, records) && i < j < |records|
    ensures PrevOf(records, i) != PrevOf(records, j) || LogsCollide(codec, records, records)
  {
    if PrevOf(records, i) == PrevOf(records, j) {
      LinkedPrev(codec, records, j - 1);
      assert i > 0;
      SharedHashCollides(codec, records, i - 1, j - 1);
    }
  }

  /**
   * A decision's AuditChainPrev is its record's PrevHash exactly when nothing was appended between the reading
   * of the head and the record, unless the chain exhibits a collision.
   */
  lemma PrevTellsInterleaving(w: World, ops: seq<Op>, t: nat)
    requires Sound(w.codec)
    requires t in Run(w, ops).tasks && Run(w, ops).tasks[t].Done? && Run(w, ops).tasks[t].at.Some?
    ensures
      var records, task := Run(w, ops).records, Run(w, ops).tasks[t];
      && task.at.value < |records|
      && ((task.dec.auditChainPrev == records[task.at.value].prevHash <==> task.at.value == task.seen)
          || LogsCollide(w.codec, records, records))
  {
    FinishedRequestsOwnRecords(w, ops, t);
    EveryRunKeepsInv(w, ops);
    var records, task := Run(w, ops).records, Run(w, ops).tasks[t];
    if task.seen < task.at.value {
      LaterPrevDiffers(w.codec, records, task.seen, task.at.value);
    }
  }

  // ---- Every run: what citations name ----

  /** What a decision record says that it is about. */
  ghost function Subject(reader: Reader, payload: string): Criteria {
    match reader.decision(payload)
    case None => Criteria("", "", "", "")
    case Some(p) => Criteria(p.eventType, p.sourceID, p.severity, p.tenant)
  }

  /**
   * Among the first n records, h names a decision that passed its guardrails, agrees with c in all four
   * dimensions, and was acted on by an operator.
   */
  ghost predicate Resolves(reader: Reader, records: seq<Record>, n: nat, h: string, c: Criteria) {
    exists i, j :: 0 <= i < n && 0 <= j < n && n <= |records| && ResolvedBy(reader, records, h, c, i, j)
  }

  ghost predicate ResolvedBy(reader: Reader, records: seq<Record>, h: string, c: Criteria, i: nat, j: nat)
    requires i < |records| && j < |records|
  {
    && records[i].hash == h && DecisionOf(reader, records[i]).Some?
    && FourDimensions(reader, DecisionOf(reader, records[i]).value.payload, c)
    && ActionOf(reader, records[j]).Some? && ActionOf(reader, records[j]).value.payload.decisionID == h
  }

  /** All hashes that a payload cites are resolved among the first n records, for what the payload is about. */
  ghost predicate CitesResolved(cfg: Config, records: seq<Record>, n: nat, payload: Option<string>) {
    payload.Some? ==> forall h :: h in cfg.json.cites(payload.value) ==>
      Resolves(cfg.reader, records, n, h, Subject(cfg.reader, payload.value))
  }

  ghost predicate CitationsBack(cfg: Config, records: seq<Record>) {
    forall i :: 0 <= i < |records| && records[i].kind == CITING ==>
      CitesResolved(cfg, records, i, Some(records[i].payload))
  }

  /** What is still to be recorded cites what is already resolved. */
  ghost predicate PendingResolved(w: World, s: State) {
    forall t :: t in s.tasks && s.tasks[t].plan.kind == CITING ==>
      CitesResolved(w.cfg, s.records, |s.records|, w.cfg.json.encode(s.tasks[t].plan.entry))
  }

  /** The encoder writes a decision and its precedent hashes so that both can be read back. */
  ghost predicate ReadsBack(cfg: Config) {
    forall d: AuditEntry, hashes, text ::
      d.Decided? && cfg.json.encode(DecidedWithPrecedents(d, hashes)) == Some(text) ==>
        cfg.json.cites(text) == hashes
        && Subject(cfg.reader, text) == Criteria(d.eventType, d.sourceID, d.severity, d.tenant)
  }

  lemma ResolvesGrows(reader: Reader, records: seq<Record>, r: Record, n: nat, m: nat, h: string, c: Criteria)
    requires Resolves(reader, records, n, h, c) && n <= m <= |records| + 1
    ensures Resolves(reader, records + [r], m, h, c)
  {
    var i, j :| 0 <= i < n && 0 <= j < n && n <= |records| && ResolvedBy(reader, records, h, c, i, j);
    assert ResolvedBy(reader, records + [r], h, c, i, j);
  }

  lemma CitesGrow(cfg: Config, records: seq<Record>, r: Record, n: nat, m: nat, payload: Option<string>)
    requires CitesResolved(cfg, records, n, payload) && n <= m <= |records| + 1
    ensures CitesResolved(cfg, records + [r], m, payload)
  {
    if payload.Some? {
      var c := Subject(cfg.reader, payload.value);
      forall h | h in cfg.json.cites(payload.value)
        ensures Resolves(cfg.reader, records + [r], m, h, c)
      {
        ResolvesGrows(cfg.reader, records, r, n, m, h, c);
      }
    }
  }

  lemma CitationsStayBack(cfg: Config, records: seq<Record>, r: Record)
    requires CitationsBack(cfg, records)
    requires r.kind == CITING ==> CitesResolved(cfg, records, |records|, Some(r.payload))
    ensures CitationsBack(cfg, records + [r])
  {
    var longer := records + [r];
    forall i | 0 <= i < |longer| && longer[i].kind == CITING
      ensures CitesResolved(cfg, longer, i, Some(longer[i].payload))
    {
      if i < |records| {
        assert longer[i] == records[i];
        CitesGrow(cfg, records, r, i, i, Some(records[i].payload));
      } else {
        CitesGrow(cfg, records, r, i, i, Some(r.payload));
      }
    }
  }

  /** Appending a record that cites only resolved decisions keeps all citations resolved. */
  lemma AppendKeepsCitations(w: World, s: State, kind: string, payload: Option<string>, now: Utc)
    requires CitationsBack(w.cfg, s.records) && PendingResolved(w, s)
    requires kind == CITING ==> CitesResolved(w.cfg, s.records, |s.records|, payload)
    ensures
      var next := s.(records := Grown(s.records, AppendTo(w, s.records, kind, payload, now)));
      CitationsBack(w.cfg, next.records) && PendingResolved(w, next)
  {
    var res := AppendTo(w, s.records, kind, payload, now);
    if res.Ok? {
      CitationsStayBack(w.cfg, s.records, res.value);
      var n := |s.records|;
      forall t | t in s.tasks && s.tasks[t].plan.kind == CITING
        ensures CitesResolved(w.cfg, s.records + [res.value], n + 1, w.cfg.json.encode(s.tasks[t].plan.entry))
      {
        CitesGrow(w.cfg, s.records, res.value, n, n + 1, w.cfg.json.encode(s.tasks[t].plan.entry));
      }
    }
  }

  /** Everything that `FindMatches` returns is resolved in the chain it scanned. */
  lemma AnswersAreResolved(reader: Reader, records: seq<Record>, c: Criteria, max: int, matched: seq<Resolved>, k: nat)
    requires IsAnswer(reader, records, c, max, matched) && k < |matched|
    ensures Resolves(reader, records, |records|, matched[k].decisionHash, c)
  {
    var pairs: seq<Match> :|
      && ListsMatches(reader, records, c, pairs)
      && |matched| == Min(Cap(max), |pairs|)
      && forall l :: 0 <= l < |matched| ==> matched[l] == Pair(reader, records, pairs[l]);
    MatchIsResolved(reader, records, c, pairs[k]);
  }

  lemma MatchIsResolved(reader: Reader, records: seq<Record>, c: Criteria, m: Match)
    requires IsMatch(reader, records, c, m.decision, m.action)
    ensures Resolves(reader, records, |records|, Pair(reader, records, m).decisionHash, c)
  {
    assert ResolvedBy(reader, records, Pair(reader, records, m).decisionHash, c, m.decision, m.action);
  }

  lemma PrecedentsAreResolved(reader: Reader, records: seq<Record>, c: Criteria, max: int, matched: seq<Resolved>)
    requires IsAnswer(reader, records, c, max, matched)
    ensures forall h :: h in PrecedentHashes(matched) ==> Resolves(reader, records, |records|, h, c)
  {
    forall h | h in PrecedentHashes(matched)
      ensures Resolves(reader, records, |records|, h, c)
    {
      var k :| 0 <= k < |matched| && PrecedentHashes(matched)[k] == h;
      AnswersAreResolved(reader, records, c, max, matched, k);
    }
  }

  /** A passed suggestion's record is about the event whose criteria its precedents answered. */
  lemma SuggestionSubject(w: World, ask: Ask)
    requires ReadsBack(w.cfg) && ask.precedents.Some? && PlanFor(w, ask).Ok? && PlanFor(w, ask).value.kind == CITING
    ensures
      var payload := w.cfg.json.encode(PlanFor(w, ask).value.entry);
      payload.Some? ==>
        && w.cfg.json.cites(payload.value) == PrecedentHashes(ask.precedents.value)
        && Subject(w.cfg.reader, payload.value) == CriteriaFor(w.cfg, ask.e)
  {
    var plan := PlanFor(w, ask).value;
    PlansAreSound(w, ask);
    assert plan.entry.decided.Decided?;
  }

  lemma SuggestionCitesResolved(w: World, records: seq<Record>, ask: Ask, max: int)
    requires ReadsBack(w.cfg) && ask.precedents.Some? && PlanFor(w, ask).Ok? && PlanFor(w, ask).value.kind == CITING
    requires IsAnswer(w.cfg.reader, records, CriteriaFor(w.cfg, ask.e), max, ask.precedents.value)
    ensures CitesResolved(w.cfg, records, |records|, w.cfg.json.encode(PlanFor(w, ask).value.entry))
  {
    PrecedentsAreResolved(w.cfg.reader, records, CriteriaFor(w.cfg, ask.e), max, ask.precedents.value);
    SuggestionSubject(w, ask);
  }

  lemma DraftKeepsCitations(w: World, s: State, t: nat, ask: Ask)
    requires PendingResolved(w, s)
    requires PlanFor(w, ask).Ok? && PlanFor(w, ask).value.kind == CITING ==>
      CitesResolved(w.cfg, s.records, |s.records|, w.cfg.json.encode(PlanFor(w, ask).value.entry))
    ensures PendingResolved(w, Draft(w, s, t, ask))
  {
  }

  lemma StartSuggestKeepsCitations(w: World, s: State, t: nat, ask: Ask, max: int)
    requires ReadsBack(w.cfg) && ask.precedents.Some? && PendingResolved(w, s)
    requires IsAnswer(w.cfg.reader, s.records, CriteriaFor(w.cfg, ask.e), max, ask.precedents.value)
    ensures PendingResolved(w, Draft(w, s, t, ask))
  {
    if PlanFor(w, ask).Ok? && PlanFor(w, ask).value.kind == CITING {
      SuggestionCitesResolved(w, s.records, ask, max);
    }
    DraftKeepsCitations(w, s, t, ask);
  }

  lemma StartDecideKeepsCitations(w: World, s: State, t: nat, ask: Ask)
    requires ask.precedents.None? && PendingResolved(w, s)
    ensures PendingResolved(w, Draft(w, s, t, ask))
  {
    PlansAreSound(w, ask);
    DraftKeepsCitations(w, s, t, ask);
  }

  lemma CommitKeepsCitations(w: World, s: State, t: nat, now: Utc)
    requires t in s.tasks && s.tasks[t].HeadRead? && CitationsBack(w.cfg, s.records) && PendingResolved(w, s)
    ensures CitationsBack(w.cfg, Step(w, s, Commit(t, now)).records) && PendingResolved(w, Step(w, s, Commit(t, now)))
  {
    var task := s.tasks[t];
    AppendKeepsCitations(w, s, task.plan.kind, w.cfg.json.encode(task.plan.entry), now);
    assert Step(w, s, Commit(t, now)).tasks[t].plan == task.plan;
  }

  lemma StepKeepsCitations(w: World, s: State, op: Op)
    requires ReadsBack(w.cfg) && CitationsBack(w.cfg, s.records) && PendingResolved(w, s)
    ensures CitationsBack(w.cfg, Step(w, s, op).records) && PendingResolved(w, Step(w, s, op))
  {
    match op
    case StartDecide(t, e, instruction, reply) =>
      StartDecideKeepsCitations(w, s, t, Ask(e, instruction, reply, None));
    case StartSuggest(t, e, instruction, max, matched, reply) =>
      if IsAnswer(w.cfg.reader, s.records, CriteriaFor(w.cfg, e), max, matched) {
        StartSuggestKeepsCitations(w, s, t, Ask(e, instruction, reply, Some(matched)), max);
      }
    case ReadHead(t) =>
    case Commit(t, now) =>
      if t in s.tasks && s.tasks[t].HeadRead? { CommitKeepsCitations(w, s, t, now); }
    case OperatorAction(decisionID, operatorID, action, annotation, now) =>
      AppendKeepsCitations(w, s, "operator_action",
                           w.cfg.json.encode(Acted(decisionID, operatorID, action, annotation, w.cfg.tenant)), now);
    case OtherRecord(kind, payload, now) =>
      if kind != CITING { AppendKeepsCitations(w, s, kind, payload, now); }
  }

  lemma {:induction false} EveryRunKeepsCitations(w: World, ops: seq<Op>)
    requires ReadsBack(w.cfg)
    ensures CitationsBack(w.cfg, Run(w, ops).records) && PendingResolved(w, Run(w, ops))
  {
    if |ops| > 0 {
      EveryRunKeepsCitations(w, ops[..|ops|-1]);
      StepKeepsCitations(w, Run(w, ops[..|ops|-1]), ops[|ops|-1]);
    }
  }

  /**
   * Each precedent hash in the chain names an earlier passed decision that agrees with the citing record in all
   * four dimensions, and on which an operator acted, also earlier.
   */
  lemma CitationsPointBack(w: World, ops: seq<Op>, i: nat, h: string)
    requires ReadsBack(w.cfg)
    requires i < |Run(w, ops).records| && Run(w, ops).records[i].kind == CITING
    requires h in w.cfg.json.cites(Run(w, ops).records[i].payload)
    ensures
      var records := Run(w, ops).records;
      Resolves(w.cfg.reader, records, i, h, Subject(w.cfg.reader, records[i].payload))
  {
    EveryRunKeepsCitations(w, ops);
    assert CitesResolved(w.cfg, Run(w, ops).records, i, Some(Run(w, ops).records[i].payload));
  }

  /**
   * In particular no suggestion cites another tenant's precedent: each hash that a recorded suggestion cites
   * names an earlier decision whose tenant is that of the event it was asked about.
   */
  lemma CitationsStayInTenant(w: World, ops: seq<Op>, t: nat, h: string) returns (k: nat, tenant: string)
    requires ReadsBack(w.cfg)
    requires t in Run(w, ops).tasks && Run(w, ops).tasks[t].Done? && Run(w, ops).tasks[t].at.Some?
    requires Run(w, ops).tasks[t].plan.kind == CITING
    requires var ask := Run(w, ops).tasks[t].ask; ask.precedents.Some? && h in PrecedentHashes(ask.precedents.value)
    ensures
      var records, task, reader := Run(w, ops).records, Run(w, ops).tasks[t], w.cfg.reader;
      && k < task.at.value < |records| && records[k].hash == h && DecisionOf(reader, records[k]).Some?
      && Owns(w.cfg, task.ask.e, tenant)
      && NormalizeTenant(DecisionOf(reader, records[k]).value.payload.tenant) == NormalizeTenant(tenant)
  {
    var records, task, reader := Run(w, ops).records, Run(w, ops).tasks[t], w.cfg.reader;
    FinishedRequestsOwnRecords(w, ops, t);
    SuggestionSubject(w, task.ask);
    CriteriaOfEvent(w.cfg, task.ask.e);
    tenant := CriteriaFor(w.cfg, task.ask.e).tenantID;
    CitationsPointBack(w, ops, task.at.value, h);
    var j: nat;
    k, j := Resolving(reader, records, task.at.value, h, CriteriaFor(w.cfg, task.ask.e));
  }

  lemma Resolving(reader: Reader, records: seq<Record>, n: nat, h: string, c: Criteria) returns (i: nat, j: nat)
    requires Resolves(reader, records, n, h, c)
    ensures i < n <= |records| && j < n && ResolvedBy(reader, records, h, c, i, j)
  {
    i, j :| 0 <= i < n && 0 <= j < n && n <= |records| && ResolvedBy(reader, records, h, c, i, j);
  }

  /** And the citation graph is acyclic: whatever record carries a cited hash stands before the citing one. */
  lemma CitedRecordsAreEarlier(w: World, ops: seq<Op>, i: nat, h: string, k: nat)
    requires ReadsBack(w.cfg) && Sound(w.codec)
    requires
      var records := Run(w, ops).records;
      && i < |records| && records[i].kind == CITING && h in w.cfg.json.cites(records[i].payload)
      && k < |records| && records[k].hash == h
    ensures k < i || LogsCollide(w.codec, Run(w, ops).records, Run(w, ops).records)
  {
    var records, reader := Run(w, ops).records, w.cfg.reader;
    EveryRunKeepsInv(w, ops);
    CitationsPointBack(w, ops, i, h);
    var d, j := Resolving(reader, records, i, h, Subject(reader, records[i].payload));
    if k > d {
      SharedHashCollides(w.codec, records, d, k);
    }
  }

  // ---- The steps of a request, run back to back, are the service's call ----

  /** The remaining steps of request t, at once. */
  ghost function Finish(w: World, s: State, t: nat, now: Utc): State {
    Step(w, Step(w, s, ReadHead(t)), Commit(t, now))
  }

  /** From s to `done`, request t has been audited as the service's contract for its plan has it. */
  ghost predicate Served(w: World, s: State, t: nat, plan: Result<Plan>, now: Utc, done: State) {
    if plan.Err? then done == s
    else
      && t in done.tasks && done.tasks[t].Done? && done.tasks == s.tasks[t := done.tasks[t]]
      && AuditedOn(w.codec, w.cfg.json, s.records, |s.records| % TWO64, PrevOf(s.records, |s.records|),
                   plan.value, now, done.tasks[t].dec, done.records)
  }

  lemma AskIsServed(w: World, s: State, t: nat, ask: Ask, now: Utc)
    requires t !in s.tasks
    ensures Served(w, s, t, PlanFor(w, ask), now, Finish(w, Draft(w, s, t, ask), t, now))
  {
  }

  /** `Service.Decide` is StartDecide, ReadHead and Commit without interruption. */
  lemma DecideIsThreeSteps(w: World, s: State, t: nat, e: Event, instruction: string, reply: Result<Response>, now: Utc)
    requires t !in s.tasks
    ensures Served(w, s, t, PlanDecide(w.cfg, w.policy, e, instruction, reply), now,
                   Finish(w, Step(w, s, StartDecide(t, e, instruction, reply)), t, now))
  {
    AskIsServed(w, s, t, Ask(e, instruction, reply, None), now);
  }

  /** `Service.SuggestWithPrecedents` is StartSuggest, with the precedents that it retrieved, ReadHead and Commit. */
  lemma SuggestIsThreeSteps(w: World, s: State, t: nat, e: Event, instruction: string, max: int,
                            matched: seq<Resolved>, reply: Result<Response>, now: Utc)
    requires t !in s.tasks && IsAnswer(w.cfg.reader, s.records, CriteriaFor(w.cfg, e), max, matched)
    ensures Served(w, s, t, PlanSuggest(w.cfg, w.policy, e, instruction, matched, reply), now,
                   Finish(w, Step(w, s, StartSuggest(t, e, instruction, max, matched, reply)), t, now))
  {
    AskIsServed(w, s, t, Ask(e, instruction, reply, Some(matched)), now);
  }

  /** A call of the service, seen from a run: it leaves the chain as the three steps leave it. */
  method DecideInRun(service: Service, ghost w: World, ghost s: State, ghost t: nat, e: Event, instruction: string,
                     reply: Result<Response>, now: Utc) returns (res: Result<Decision>)
    requires service.chain.Valid() && service.chain.records == s.records && t !in s.tasks
    requires w == World(service.cfg, service.guardrails.Settings(), service.chain.codec)
    modifies service.chain
    ensures service.chain.Valid()
    ensures
      var done := Finish(w, Step(w, s, StartDecide(t, e, instruction, reply)), t, now);
      && service.chain.records == done.records
      && (res.Ok? ==> t in done.tasks && done.tasks[t].Done? && done.tasks[t].dec == res.value)
      && (res.Err? ==> done == s)
  {
    res := service.Decide(e, instruction, reply, now);
    DecideIsThreeSteps(w, s, t, e, instruction, reply, now);
  }

  method SuggestInRun(service: Service, ghost w: World, ghost s: State, ghost t: nat, e: Event, instruction: string,
                      max: int, reply: Result<Response>, now: Utc) returns (res: Result<Suggestion>)
    requires service.chain.Valid() && service.chain.records == s.records && t !in s.tasks
    requires w == World(service.cfg, service.guardrails.Settings(), service.chain.codec)
    modifies service.chain
    ensures service.chain.Valid()
    ensures res.Err? ==> service.chain.records == s.records
    ensures res.Ok? ==>
      var start := StartSuggest(t, e, instruction, max, res.value.precedentsUsed, reply);
      var done := Finish(w, Step(w, s, start), t, now);
      && service.chain.records == done.records
      && t in done.tasks && done.tasks[t].Done? && done.tasks[t].dec == res.value.decision
  {
    res := service.SuggestWithPrecedents(e, instruction, max, reply, now);
    if res.Ok? {
      SuggestIsThreeSteps(w, s, t, e, instruction, max, res.value.precedentsUsed, reply, now);
    }
  }
}
