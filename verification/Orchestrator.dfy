/** The decision layer: every model call is guarded, audited, and returned as a suggestion. */
module Orchestrator {
  import opened Wrappers
  import opened Canonical
  import opened AuditText
  import opened AuditChain
  import opened Precedents
  import opened G = Guardrails

  datatype Provider = Provider(name: string, modelID: string)

  /** What is appended to the chain, before the JSON encoder turns it into a payload text. */
  datatype AuditEntry =
    | Decided(eventID: string, eventType: string, sourceID: string, severity: string, tenant: string,
              provider: Provider, promptHash: string, response: Response, status: string, operatorReview: bool)
    | DecidedWithPrecedents(decided: AuditEntry, precedentHashes: seq<string>)
    | Refused(eventID: string, detail: string, refusedResponse: Option<Response>,
              provider: Provider, promptHash: string, tenant: string)
    | RefusedWithPrecedents(refused: AuditEntry, eventType: string, sourceID: string, severity: string,
                            status: string, precedentCount: nat)
    | Acted(decisionID: string, operatorID: string, action: string, annotation: string, tenant: string)

  /** Payload encoding, which may fail, and the precedent hashes that a payload text lists. */
  datatype Json = Json(encode: AuditEntry -> Option<string>, cites: string -> seq<string>)

  /**
   * What a call sees of its surroundings. The model context of a decision is the event's fields, as text; that
   * of a suggestion also has a field for the precedents, even when there are none.
   */
  datatype Config = Config(provider: Option<Provider>, tenant: string, json: Json, reader: Reader,
                           sha256: string -> string, contextOf: Event -> string,
                           contextWith: (Event, seq<Resolved>) -> string,
                           defaultInstruction: string)

  datatype Decision = Decision(eventID: string, provider: Provider, promptHash: string, response: Response,
                               guardrails: string, operatorReview: bool, auditChainHash: string, auditChainPrev: string)

  /** How the guardrails and the model disposed of one request. */
  datatype Verdict = Rejected(status: string, reason: string, rejected: Option<Response>) | Passed(response: Response)

  function Judge(policy: Policy, input: string, reply: Result<Response>): Verdict {
    var bad := InputError(policy, input);
    if bad.Some? then Rejected("rejected_input", bad.value, None)
    else match reply
      case Err(e) => Rejected("provider_error", e, None)
      case Ok(r) =>
        var refusal := OutputError(policy, r);
        if refusal.Some? then Rejected("rejected_output", refusal.value, Some(r)) else Passed(r)
  }

  /** Exactly which verdict a request gets. */
  lemma VerdictExactly(policy: Policy, input: string, reply: Result<Response>)
    ensures
      var v := Judge(policy, input, reply);
      var admitted := InputError(policy, input).None?;
      && (v.Passed? <==> admitted && reply.Ok? && OutputError(policy, reply.value).None?)
      && (v.Passed? ==> reply == Ok(v.response))
      && (v.Rejected? ==>
            && (v.status == "rejected_input" <==> !admitted)
            && (v.status == "provider_error" <==> admitted && reply.Err?)
            && (v.status == "rejected_output" <==> admitted && reply.Ok?)
            && v.rejected == if v.status == "rejected_output" then Some(reply.value) else None)
  {
    assert "rejected_input" != "provider_error" && "rejected_input" != "rejected_output";
  }

  function PromptHash(cfg: Config, context: string, instruction: string): string {
    cfg.sha256(context + "\0" + instruction)
  }

  lemma SplitAtZero(c: string, i: string, d: string, j: string)
    requires '\0' !in c && '\0' !in d && c + "\0" + i == d + "\0" + j
    ensures c == d && i == j
  {
    var s, t := c + "\0" + i, d + "\0" + j;
    assert s[|c|] == '\0' && t[|d|] == '\0';
    assert forall k :: 0 <= k < |c| ==> s[k] == c[k];
    assert forall k :: 0 <= k < |d| ==> t[k] == d[k];
    assert |c| == |d|;
    assert c == s[..|c|] && d == t[..|d|] && i == s[|c|+1..] && j == t[|d|+1..];
  }

  /** Contexts are JSON, which has no NUL: one prompt hash, one context and instruction, or a collision in hand. */
  lemma PromptHashDetermines(cfg: Config, c: string, i: string, d: string, j: string)
    requires '\0' !in c && '\0' !in d && PromptHash(cfg, c, i) == PromptHash(cfg, d, j)
    ensures (c == d && i == j)
      || (c + "\0" + i != d + "\0" + j && cfg.sha256(c + "\0" + i) == cfg.sha256(d + "\0" + j))
  {
    if c + "\0" + i == d + "\0" + j { SplitAtZero(c, i, d, j); }
  }

  function EventTenant(e: Event, fallback: string): string {
    if e.metadata.tenantID != "" then e.metadata.tenantID
    else if fallback != "" then fallback
    else "default"
  }

  /** A decision before it is audited, and the record that will audit it. */
  datatype Plan = Plan(kind: string, entry: AuditEntry, draft: Decision)

  function DraftOf(p: Provider, eventID: string, promptHash: string, v: Verdict): Decision {
    match v
    case Passed(r) => Decision(eventID, p, promptHash, r, "pass", r.requiresReview, "", "")
    case Rejected(status, _, r) =>
      Decision(eventID, p, promptHash, if r.Some? then r.value else NO_RESPONSE, status, true, "", "")
  }

  function DecidedEntry(cfg: Config, p: Provider, e: Event, promptHash: string, r: Response): AuditEntry {
    Decided(e.eventID, e.eventType, e.sourceID, e.severity, EventTenant(e, cfg.tenant), p, promptHash, r, "pass",
            r.requiresReview)
  }

  function PlanDecide(cfg: Config, policy: Policy, e: Event, instruction: string, reply: Result<Response>)
    : Result<Plan>
  {
    if cfg.provider.None? then Err("orchestrator: no provider configured")
    else if e.Validate().Some? then Err("orchestrator: invalid event: " + e.Validate().value)
    else
      var p, context := cfg.provider.value, cfg.contextOf(e);
      var hash, v := PromptHash(cfg, context, instruction), Judge(policy, context + "\n" + instruction, reply);
      var draft := DraftOf(p, e.eventID, hash, v);
      match v
      case Passed(r) => Ok(Plan("decision", DecidedEntry(cfg, p, e, hash, r), draft))
      case Rejected(status, reason, r) =>
        Ok(Plan("decision_" + status, Refused(e.eventID, reason, r, p, hash, cfg.tenant), draft))
  }

  function PrecedentHashes(matched: seq<Resolved>): (hashes: seq<string>)
    ensures |hashes| == |matched|
    ensures forall i :: 0 <= i < |matched| ==> hashes[i] == matched[i].decisionHash
  {
    seq(|matched|, i requires 0 <= i < |matched| => matched[i].decisionHash)
  }

  function PlanSuggest(cfg: Config, policy: Policy, e: Event, instruction: string, matched: seq<Resolved>,
                       reply: Result<Response>): Result<Plan>
  {
    if cfg.provider.None? then Err("orchestrator: no provider configured")
    else if e.Validate().Some? then Err("orchestrator: invalid event: " + e.Validate().value)
    else
      var asked := if instruction == "" then cfg.defaultInstruction else instruction;
      var p, context := cfg.provider.value, cfg.contextWith(e, matched);
      var hash, v := PromptHash(cfg, context, asked), Judge(policy, context + "\n" + asked, reply);
      var draft := DraftOf(p, e.eventID, hash, v);
      match v
      case Passed(r) =>
        Ok(Plan("decision_with_precedents",
                DecidedWithPrecedents(DecidedEntry(cfg, p, e, hash, r), PrecedentHashes(matched)), draft))
      case Rejected(status, reason, r) =>
        var refused := Refused(e.eventID, reason, r, p, hash, EventTenant(e, cfg.tenant));
        Ok(Plan("decision_" + status,
                RefusedWithPrecedents(refused, e.eventType, e.sourceID, e.severity, status, |matched|), draft))
  }

  /** The query that retrieves an event's precedents. */
  function CriteriaFor(cfg: Config, e: Event): Criteria {
    Criteria(e.eventType, e.sourceID, e.severity, EventTenant(e, cfg.tenant))
  }

  /** `tenant` is the event's own, or the configured one if it has none, or "default" if there is neither. */
  ghost predicate Owns(cfg: Config, e: Event, tenant: string) {
    && (e.metadata.tenantID != "" ==> tenant == e.metadata.tenantID)
    && (e.metadata.tenantID == "" && cfg.tenant != "" ==> tenant == cfg.tenant)
    && (e.metadata.tenantID == "" && cfg.tenant == "" ==> tenant == "default")
  }

  /** The query is about the event, and about its tenant. */
  lemma CriteriaOfEvent(cfg: Config, e: Event)
    ensures
      var c := CriteriaFor(cfg, e);
      c.eventType == e.eventType && c.sourceID == e.sourceID && c.severity == e.severity && Owns(cfg, e, c.tenantID)
  {
  }

  /** The finished decision: a failed append is ignored and leaves the audit hash empty. */
  function Audited(draft: Decision, prev: string, res: Result<Record>): Decision {
    draft.(auditChainPrev := prev, auditChainHash := if res.Ok? then res.value.hash else "")
  }

  /** No suggestion is surfaced without review unless it passed, with a confidence in range and at the floor. */
  lemma UnreviewedOnlyIfConfident(policy: Policy, p: Provider, eventID: string, promptHash: string, input: string,
                                  reply: Result<Response>)
    ensures
      var d := DraftOf(p, eventID, promptHash, Judge(policy, input, reply));
      !d.operatorReview ==>
        && d.guardrails == "pass" && reply == Ok(d.response)
        && InputError(policy, input).None?
        && 0.0 <= d.response.confidence <= 1.0 && d.response.confidence >= policy.minConfidence
  {
    if reply.Ok? { OutputAccepted(policy, reply.value); }
  }

  // ---- Operator-facing steps ----

  datatype Step = Step(text: string, cited: string)

  /** The text of a step, as far as the operator's action. */
  function StepStart(p: Resolved): string {
    "Prior " + p.classification + " on similar " + p.eventType + "/" + p.severity + ": operator " + p.operatorAction
  }

  function StepText(p: Resolved): string {
    StepStart(p)
      + (if p.annotation != "" then " — " + p.annotation else "")
      + (if p.suggestion != "" then " (AI had suggested: " + p.suggestion + ")" else "")
  }

  /** One step for the model's answer, then one per precedent, in order, citing its decision. */
  function StepsOf(resp: Response, matched: seq<Resolved>): seq<Step> {
    [Step(resp.classification + " — " + resp.suggestion, "")]
      + seq(|matched|, i requires 0 <= i < |matched| => Step(StepText(matched[i]), matched[i].decisionHash))
  }

  method BuildSteps(resp: Response, matched: seq<Resolved>) returns (steps: seq<Step>)
    ensures steps == StepsOf(resp, matched)
  {
    steps := [Step(resp.classification + " — " + resp.suggestion, "")];
    for i := 0 to |matched|
      invariant steps == StepsOf(resp, matched)[..i+1]
    {
      steps := steps + [Step(StepText(matched[i]), matched[i].decisionHash)];
    }
  }

  /** Every precedent used is cited by exactly the step that reports it. */
  lemma StepsCitePrecedents(resp: Response, matched: seq<Resolved>, h: string)
    requires h != ""
    ensures (exists i :: 0 <= i < |StepsOf(resp, matched)| && StepsOf(resp, matched)[i].cited == h)
       <==> (exists i :: 0 <= i < |matched| && matched[i].decisionHash == h)
  {
    var steps := StepsOf(resp, matched);
    assert steps[0].cited == "";
    forall i | 0 <= i < |matched|
      ensures steps[i+1].cited == matched[i].decisionHash
    {
    }
    if i :| 0 <= i < |steps| && steps[i].cited == h {
      assert matched[i-1].decisionHash == h;
    }
  }

  /** x can be read in s. */
  ghost predicate Occurs(x: string, s: string) {
    exists a: string, b: string :: s == a + x + b
  }

  lemma OccursAt(a: string, x: string, b: string)
    ensures Occurs(x, a + x + b)
  {
  }

  lemma OccursLast(a: string, x: string)
    ensures Occurs(x, a + x)
  {
    assert a + x == a + x + "";
  }

  lemma StillOccurs(x: string, s: string, more: string)
    requires Occurs(x, s)
    ensures Occurs(x, s + more)
  {
    var a: string, b: string :| s == a + x + b;
    assert s + more == a + x + (b + more);
  }

  lemma StepStartTells(p: Resolved)
    ensures Occurs(p.classification, StepStart(p)) && Occurs(p.operatorAction, StepStart(p))
    ensures Occurs(p.eventType, StepStart(p)) && Occurs(p.severity, StepStart(p))
  {
    var a := "Prior " + p.classification;
    var b := a + " on similar " + p.eventType;
    var c := b + "/" + p.severity;
    OccursLast("Prior ", p.classification);
    StillOccurs(p.classification, a, " on similar ");
    StillOccurs(p.classification, a + " on similar ", p.eventType);
    OccursLast(a + " on similar ", p.eventType);
    PairStillOccurs(p.classification, p.eventType, b, "/", p.severity);
    OccursLast(b + "/", p.severity);
    PairStillOccurs(p.classification, p.eventType, c, ": operator ", p.operatorAction);
    PairStillOccurs(p.severity, p.severity, c, ": operator ", p.operatorAction);
    OccursLast(c + ": operator ", p.operatorAction);
  }

  lemma PairStillOccurs(x: string, y: string, s: string, more: string, last: string)
    requires Occurs(x, s) && Occurs(y, s)
    ensures Occurs(x, s + more + last) && Occurs(y, s + more + last)
  {
    StillOccurs(x, s, more);
    StillOccurs(x, s + more, last);
    StillOccurs(y, s, more);
    StillOccurs(y, s + more, last);
  }

  /** A precedent's step says what was decided, on what, what the operator did, and any remark or suggestion. */
  lemma StepTells(p: Resolved)
    ensures Occurs(p.classification, StepText(p)) && Occurs(p.operatorAction, StepText(p))
    ensures Occurs(p.eventType, StepText(p)) && Occurs(p.severity, StepText(p))
    ensures p.annotation != "" ==> Occurs(p.annotation, StepText(p))
    ensures p.suggestion != "" ==> Occurs(p.suggestion, StepText(p))
  {
    var start := StepStart(p);
    var note := if p.annotation != "" then " — " + p.annotation else "";
    var said := if p.suggestion != "" then " (AI had suggested: " + p.suggestion + ")" else "";
    StepStartTells(p);
    PairStillOccurs(p.classification, p.operatorAction, start, note, said);
    PairStillOccurs(p.eventType, p.severity, start, note, said);
    if p.annotation != "" {
      OccursLast(start + " — ", p.annotation);
      assert start + " — " + p.annotation == start + note;
      StillOccurs(p.annotation, start + note, said);
    }
    if p.suggestion != "" {
      OccursAt(start + note + " (AI had suggested: ", p.suggestion, ")");
      assert start + note + " (AI had suggested: " + p.suggestion + ")" == start + note + said;
    }
  }

  function StepsFromRejected(d: Decision): seq<Step> {
    var msg := if d.response.suggestion != "" then d.response.suggestion else d.guardrails;
    [Step("Suggestion blocked by guardrails (" + msg + "); review manually.", "")]
  }

  function StepsAfter(d: Decision, matched: seq<Resolved>): seq<Step> {
    if d.guardrails == "pass" then StepsOf(d.response, matched) else StepsFromRejected(d)
  }

  /**
   * A passed request is answered by the model's answer and then one step per precedent, in order; a rejected one
   * by a single step that cites nothing and names the model's suggestion or, without one, the status.
   */
  lemma StepsExactly(d: Decision, matched: seq<Resolved>)
    ensures d.guardrails == "pass" ==>
      var steps := StepsAfter(d, matched);
      && |steps| == |matched| + 1 && steps[0].cited == ""
      && Occurs(d.response.classification, steps[0].text) && Occurs(d.response.suggestion, steps[0].text)
      && forall i :: 0 <= i < |matched| ==>
           steps[i+1].cited == matched[i].decisionHash && steps[i+1].text == StepText(matched[i])
    ensures d.guardrails != "pass" ==>
      var steps := StepsAfter(d, matched);
      && |steps| == 1 && steps[0].cited == ""
      && Occurs(if d.response.suggestion != "" then d.response.suggestion else d.guardrails, steps[0].text)
  {
    if d.guardrails == "pass" {
      OccursLast("", d.response.classification);
      assert "" + d.response.classification == d.response.classification;
      StillOccurs(d.response.classification, d.response.classification, " — ");
      StillOccurs(d.response.classification, d.response.classification + " — ", d.response.suggestion);
      OccursLast(d.response.classification + " — ", d.response.suggestion);
    } else {
      var msg := if d.response.suggestion != "" then d.response.suggestion else d.guardrails;
      OccursAt("Suggestion blocked by guardrails (", msg, "); review manually.");
    }
  }

  /** Auditing a plan on a chain: the decision's hashes, and the chain with the record, if one could be built. */
  ghost predicate AuditedOn(codec: Codec, json: Json, before: seq<Record>, nextSeq: nat, head: string,
                            plan: Plan, now: Utc, dec: Decision, after: seq<Record>)
  {
    var rec := NewRecord(codec, nextSeq, head, plan.kind, json.encode(plan.entry), now);
    && dec == Audited(plan.draft, head, rec)
    && after == before + (if rec.Ok? then [rec.value] else [])
  }

  datatype Suggestion = Suggestion(steps: seq<Step>, precedentsUsed: seq<Resolved>, decision: Decision)

  class Service {
    const cfg: Config
    const guardrails: G.Guardrails
    const chain: Chain

    constructor (cfg: Config, guardrails: G.Guardrails, chain: Chain)
      ensures this.cfg == (if cfg.tenant == "" then cfg.(tenant := "default") else cfg)
      ensures this.guardrails == guardrails && this.chain == chain
    {
      this.cfg := if cfg.tenant == "" then cfg.(tenant := "default") else cfg;
      this.guardrails := guardrails;
      this.chain := chain;
    }

    /** Both guardrail passes around the model call. */
    method Guard(input: string, reply: Result<Response>) returns (v: Verdict)
      ensures v == Judge(guardrails.Settings(), input, reply)
    {
      var bad := guardrails.ValidateInput(input);
      if bad.Some? {
        return Rejected("rejected_input", bad.value, None);
      }
      if reply.Err? {
        return Rejected("provider_error", reply.error, None);
      }
      var refusal := guardrails.ValidateOutput(reply.value);
      if refusal.Some? {
        return Rejected("rejected_output", refusal.value, Some(reply.value));
      }
      return Passed(reply.value);
    }

    /** Reads the head, appends the record, and fills in both hashes. */
    method Audit(plan: Plan, now: Utc) returns (dec: Decision)
      requires chain.Valid()
      modifies chain
      ensures chain.Valid()
      ensures AuditedOn(chain.codec, cfg.json, old(chain.records), old(chain.nextSeq), old(chain.headHash),
                        plan, now, dec, chain.records)
    {
      var prev := chain.headHash;
      var res := chain.Append(plan.kind, cfg.json.encode(plan.entry), now);
      dec := Audited(plan.draft, prev, res);
    }

    /** `reply` is what the provider answers if it is asked. */
    method Decide(e: Event, instruction: string, reply: Result<Response>, now: Utc) returns (res: Result<Decision>)
      requires chain.Valid()
      modifies chain
      ensures chain.Valid()
      ensures
        match PlanDecide(cfg, guardrails.Settings(), e, instruction, reply)
        case Err(error) => res == Err(error) && chain.records == old(chain.records)
        case Ok(plan) =>
          && res.Ok?
          && AuditedOn(chain.codec, cfg.json, old(chain.records), old(chain.nextSeq), old(chain.headHash),
                       plan, now, res.value, chain.records)
    {
      if cfg.provider.None? {
        return Err("orchestrator: no provider configured");
      }
      var invalid := e.Validate();
      if invalid.Some? {
        return Err("orchestrator: invalid event: " + invalid.value);
      }
      var p, context := cfg.provider.value, cfg.contextOf(e);
      var v := Guard(context + "\n" + instruction, reply);
      var hash := PromptHash(cfg, context, instruction);
      var draft := DraftOf(p, e.eventID, hash, v);
      var plan := match v
        case Passed(r) => Plan("decision", DecidedEntry(cfg, p, e, hash, r), draft)
        case Rejected(status, reason, r) =>
          Plan("decision_" + status, Refused(e.eventID, reason, r, p, hash, cfg.tenant), draft);
      var dec := Audit(plan, now);
      res := Ok(dec);
    }

    /** Guards, audits and explains a request whose precedents have been retrieved. */
    method Respond(e: Event, instruction: string, matched: seq<Resolved>, reply: Result<Response>, now: Utc)
      returns (dec: Decision, steps: seq<Step>)
      requires chain.Valid() && cfg.provider.Some? && e.Validate().None?
      modifies chain
      ensures chain.Valid()
      ensures
        var plan := PlanSuggest(cfg, guardrails.Settings(), e, instruction, matched, reply);
        && plan.Ok?
        && AuditedOn(chain.codec, cfg.json, old(chain.records), old(chain.nextSeq), old(chain.headHash),
                     plan.value, now, dec, chain.records)
      ensures steps == StepsAfter(dec, matched)
    {
      var asked := if instruction == "" then cfg.defaultInstruction else instruction;
      var p, context := cfg.provider.value, cfg.contextWith(e, matched);
      var v := Guard(context + "\n" + asked, reply);
      var hash := PromptHash(cfg, context, asked);
      var draft := DraftOf(p, e.eventID, hash, v);
      match v {
        case Passed(r) =>
          var entry := DecidedWithPrecedents(DecidedEntry(cfg, p, e, hash, r), PrecedentHashes(matched));
          dec := Audit(Plan("decision_with_precedents", entry, draft), now);
          steps := BuildSteps(r, matched);
        case Rejected(status, reason, r) =>
          var refused := Refused(e.eventID, reason, r, p, hash, EventTenant(e, cfg.tenant));
          var entry := RefusedWithPrecedents(refused, e.eventType, e.sourceID, e.severity, status, |matched|);
          dec := Audit(Plan("decision_" + status, entry, draft), now);
          steps := StepsFromRejected(dec);
      }
    }

    method SuggestWithPrecedents(e: Event, instruction: string, maxPrecedents: int, reply: Result<Response>, now: Utc)
      returns (res: Result<Suggestion>)
      requires chain.Valid()
      modifies chain
      ensures chain.Valid()
      ensures res.Ok? <==> cfg.provider.Some? && e.Validate().None?
      ensures res.Err? ==> chain.records == old(chain.records)
      ensures res.Err? ==> PlanSuggest(cfg, guardrails.Settings(), e, instruction, [], reply) == Err(res.error)
      ensures res.Ok? ==>
        var s := res.value;
        var plan := PlanSuggest(cfg, guardrails.Settings(), e, instruction, s.precedentsUsed, reply);
        && IsAnswer(cfg.reader, old(chain.records), CriteriaFor(cfg, e), maxPrecedents, s.precedentsUsed)
        && plan.Ok?
        && AuditedOn(chain.codec, cfg.json, old(chain.records), old(chain.nextSeq), old(chain.headHash),
                     plan.value, now, s.decision, chain.records)
        && s.steps == StepsAfter(s.decision, s.precedentsUsed)
    {
      if cfg.provider.None? {
        return Err("orchestrator: no provider configured");
      }
      var invalid := e.Validate();
      if invalid.Some? {
        return Err("orchestrator: invalid event: " + invalid.value);
      }
      var snapshot := chain.Snapshot();
      var matched := FindMatches(cfg.reader, snapshot, CriteriaFor(cfg, e), maxPrecedents);
      var dec, steps := Respond(e, instruction, matched, reply, now);
      res := Ok(Suggestion(steps, matched, dec));
    }

    method RecordOperatorAction(decisionID: string, operatorID: string, action: string, annotation: string, now: Utc)
      returns (res: Result<string>)
      requires chain.Valid()
      modifies chain
      ensures chain.Valid()
      ensures action !in ["accept", "override", "annotate"] ==> res.Err? && chain.records == old(chain.records)
      ensures action in ["accept", "override", "annotate"] ==>
        var rec := NewRecord(chain.codec, old(chain.nextSeq), old(chain.headHash), "operator_action",
                             cfg.json.encode(Acted(decisionID, operatorID, action, annotation, cfg.tenant)), now);
        && chain.records == old(chain.records) + (if rec.Ok? then [rec.value] else [])
        && res == match rec case Ok(r) => Ok(r.hash) case Err(error) => Err(error)
    {
      if action != "accept" && action != "override" && action != "annotate" {
        return Err("orchestrator: invalid operator action");
      }
      var payload := cfg.json.encode(Acted(decisionID, operatorID, action, annotation, cfg.tenant));
      var rec := chain.Append("operator_action", payload, now);
      res := match rec case Ok(r) => Ok(r.hash) case Err(error) => Err(error);
    }
  }
}
