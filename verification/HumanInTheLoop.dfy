/**
 * The loop that operators close: a decision that passed and was acted on is found again for the next event
 * like it, with what the model said and what the operator did.
 */
module HumanInTheLoop {
  import opened Wrappers
  import opened Canonical
  import opened AuditChain
  import opened Precedents
  import opened PrecedentTheorems
  import opened Orchestrator
  import opened OrchestratorRuns

  /** The decision inside an audit entry, if it records one that passed. */
  ghost function DecidedIn(entry: AuditEntry): Option<AuditEntry> {
    match entry
    case Decided(_, _, _, _, _, _, _, _, _, _) => Some(entry)
    case DecidedWithPrecedents(decided, _) => if decided.Decided? then Some(decided) else None
    case _ => None
  }

  /** Decisions and operator actions decode from their payload texts as they were encoded. */
  ghost predicate Decodes(cfg: Config) {
    && (forall entry, text :: cfg.json.encode(entry) == Some(text) && DecidedIn(entry).Some? ==>
          DecodesDecision(cfg, DecidedIn(entry).value, text))
    && (forall entry, text :: cfg.json.encode(entry) == Some(text) && entry.Acted? ==> DecodesAction(cfg, entry, text))
  }

  ghost predicate DecodesDecision(cfg: Config, d: AuditEntry, text: string)
    requires d.Decided?
  {
    cfg.reader.decision(text)
    == Some(DecisionPayload(d.eventID, d.eventType, d.sourceID, d.severity, d.tenant, d.status,
                            d.response.classification, d.response.suggestion))
  }

  ghost predicate DecodesAction(cfg: Config, a: AuditEntry, text: string)
    requires a.Acted?
  {
    cfg.reader.action(text) == Some(ActionPayload(a.decisionID, a.action, a.annotation))
  }

  /** Events alike: type and severity up to case, the source exactly, tenants once normalized. */
  ghost predicate Alike(cfg: Config, d: Event, dTenant: string, e: Event, eTenant: string) {
    && Owns(cfg, d, dTenant) && Owns(cfg, e, eTenant) && NormalizeTenant(dTenant) == NormalizeTenant(eTenant)
    && cfg.reader.fold(d.eventType) == cfg.reader.fold(e.eventType)
    && d.sourceID == e.sourceID
    && cfg.reader.fold(d.severity) == cfg.reader.fold(e.severity)
  }

  lemma OwnerIsOne(cfg: Config, e: Event, a: string, b: string)
    requires Owns(cfg, e, a) && Owns(cfg, e, b)
    ensures a == b
  {
  }

  /** What a finished request that passed leaves in the chain, as `FindMatches` reads it. */
  lemma PassedIsDecision(w: World, ops: seq<Op>, t: nat) returns (i: nat)
    requires Decodes(w.cfg)
    requires t in Run(w, ops).tasks && Run(w, ops).tasks[t].Done? && Run(w, ops).tasks[t].at.Some?
    requires Run(w, ops).tasks[t].dec.guardrails == "pass"
    ensures
      var records, task := Run(w, ops).records, Run(w, ops).tasks[t];
      && i == task.at.value && i < |records| && records[i].hash == task.dec.auditChainHash
      && DecisionOf(w.cfg.reader, records[i]).Some?
      && IsDecisionOn(w.cfg, task.ask.e, task.dec, DecisionOf(w.cfg.reader, records[i]).value.payload)
  {
    var task := Run(w, ops).tasks[t];
    FinishedRequestsOwnRecords(w, ops, t);
    i := task.at.value;
    EntryDecides(w, task.ask, task.plan);
    var d := DecidedIn(task.plan.entry).value;
    assert DecodesDecision(w.cfg, d, Run(w, ops).records[i].payload);
  }

  /** The payload is about the event, and tells the decision. */
  ghost predicate IsDecisionOn(cfg: Config, e: Event, dec: Decision, p: DecisionPayload) {
    && p.eventID == e.eventID && p.eventType == e.eventType && p.sourceID == e.sourceID && p.severity == e.severity
    && Owns(cfg, e, p.tenant)
    && p.classification == dec.response.classification && p.suggestion == dec.response.suggestion
  }

  lemma EntryDecides(w: World, ask: Ask, plan: Plan)
    requires PlanSound(w, ask, plan) && plan.draft.guardrails == "pass"
    requires PlanFor(w, ask) == Ok(plan)
    ensures DecidedIn(plan.entry).Some?
    ensures
      var d := DecidedIn(plan.entry).value;
      EntryTells(d, plan.draft) && About(w, ask, d)
  {
  }

  /** Record j is an operator's action on the decision of a finished request. */
  ghost predicate ActsOn(w: World, records: seq<Record>, j: nat, dec: Decision, operatorID: string, action: string,
                         annotation: string)
  {
    && j < |records| && records[j].kind == "operator_action"
    && w.cfg.json.encode(Acted(dec.auditChainHash, operatorID, action, annotation, w.cfg.tenant))
       == Some(records[j].payload)
  }

  /** The precedent tells the decision and what the operator made of it. */
  ghost predicate PrecedentTells(r: Resolved, dec: Decision, action: string, annotation: string) {
    && r.decisionHash == dec.auditChainHash && r.eventID == dec.eventID
    && r.classification == dec.response.classification && r.suggestion == dec.response.suggestion
    && r.operatorAction == action && r.annotation == annotation
  }

  /**
   * A passed decision on which an operator acted is a match for every valid event like the one it was made on,
   * and the precedent tells the model's answer and the operator's action; unless the chain exhibits a collision.
   */
  lemma ResolvedDecisionIsFound(w: World, ops: seq<Op>, t: nat, j: nat, operatorID: string, action: string,
                                annotation: string, dTenant: string, e: Event, eTenant: string)
    returns (i: nat)
    requires Decodes(w.cfg) && Sound(w.codec)
    requires t in Run(w, ops).tasks && Run(w, ops).tasks[t].Done? && Run(w, ops).tasks[t].at.Some?
    requires Run(w, ops).tasks[t].dec.guardrails == "pass"
    requires ActsOn(w, Run(w, ops).records, j, Run(w, ops).tasks[t].dec, operatorID, action, annotation)
    requires e.Validate().None? && Alike(w.cfg, Run(w, ops).tasks[t].ask.e, dTenant, e, eTenant)
    ensures i == Run(w, ops).tasks[t].at.value && i < |Run(w, ops).records|
    ensures
      var records, task := Run(w, ops).records, Run(w, ops).tasks[t];
      LogsCollide(w.codec, records, records)
      || (IsMatch(w.cfg.reader, records, CriteriaFor(w.cfg, e), i, j)
          && PrecedentTells(Pair(w.cfg.reader, records, Match(i, j)), task.dec, action, annotation))
  {
    var records, task, reader := Run(w, ops).records, Run(w, ops).tasks[t], w.cfg.reader;
    i := PassedIsDecision(w, ops, t);
    EveryRunKeepsInv(w, ops);
    LikeEventsMatch(w.cfg, task.ask.e, task.dec, DecisionOf(reader, records[i]).value.payload, dTenant, e, eTenant);
    if !LogsCollide(w.codec, records, records) {
      LinkedPrev(w.codec, records, i);
      NamedOnce(w, records, i);
      ActionReads(w, records, j, task.dec, operatorID, action, annotation);
      IdentifiedEvent(w, ops, t);
    }
  }

  /**
   * So every answer to a query about such an event has this precedent, unless it is full of precedents whose
   * decisions are at least as new.
   */
  lemma ResolvedDecisionIsCited(w: World, ops: seq<Op>, t: nat, j: nat, operatorID: string, action: string,
                                annotation: string, dTenant: string, e: Event, eTenant: string, max: int,
                                out: seq<Resolved>)
    requires Decodes(w.cfg) && Sound(w.codec)
    requires t in Run(w, ops).tasks && Run(w, ops).tasks[t].Done? && Run(w, ops).tasks[t].at.Some?
    requires Run(w, ops).tasks[t].dec.guardrails == "pass"
    requires ActsOn(w, Run(w, ops).records, j, Run(w, ops).tasks[t].dec, operatorID, action, annotation)
    requires e.Validate().None? && Alike(w.cfg, Run(w, ops).tasks[t].ask.e, dTenant, e, eTenant)
    requires IsAnswer(w.cfg.reader, Run(w, ops).records, CriteriaFor(w.cfg, e), max, out)
    ensures
      var records, task := Run(w, ops).records, Run(w, ops).tasks[t];
      || LogsCollide(w.codec, records, records)
      || (exists r :: r in out && PrecedentTells(r, task.dec, action, annotation))
      || (|out| == (if max > 0 then max else 5) && task.at.value < |records| && forall k :: 0 <= k < |out| ==>
            StandsFor(w.cfg.reader, records, CriteriaFor(w.cfg, e), out[k], records[task.at.value].sequence))
  {
    var records := Run(w, ops).records;
    var i := ResolvedDecisionIsFound(w, ops, t, j, operatorID, action, annotation, dTenant, e, eTenant);
    if !LogsCollide(w.codec, records, records) {
      NoNewerOmitted(w.cfg.reader, records, CriteriaFor(w.cfg, e), max, out, i, j);
    }
  }

  lemma IdentifiedEvent(w: World, ops: seq<Op>, t: nat)
    requires t in Run(w, ops).tasks && Run(w, ops).tasks[t].Done?
    ensures Run(w, ops).tasks[t].dec.eventID == Run(w, ops).tasks[t].ask.e.eventID
  {
    FinishedRequestsOwnRecords(w, ops, t);
  }

  lemma ActionReads(w: World, records: seq<Record>, j: nat, dec: Decision, operatorID: string, action: string,
                    annotation: string)
    requires Decodes(w.cfg) && ActsOn(w, records, j, dec, operatorID, action, annotation)
    requires dec.auditChainHash != ""
    ensures ActionOf(w.cfg.reader, records[j])
         == Some(ActionRow(ActionPayload(dec.auditChainHash, action, annotation), records[j].hash))
  {
    var acted := Acted(dec.auditChainHash, operatorID, action, annotation, w.cfg.tenant);
    assert DecodesAction(w.cfg, acted, records[j].payload);
  }

  lemma LikeEventsMatch(cfg: Config, d: Event, dec: Decision, p: DecisionPayload, dTenant: string, e: Event,
                        eTenant: string)
    requires IsDecisionOn(cfg, d, dec, p) && e.Validate().None? && Alike(cfg, d, dTenant, e, eTenant)
    ensures FourDimensions(cfg.reader, p, CriteriaFor(cfg, e))
  {
    CriteriaOfEvent(cfg, e);
    OwnerIsOne(cfg, d, dTenant, p.tenant);
    OwnerIsOne(cfg, e, eTenant, CriteriaFor(cfg, e).tenantID);
  }

  /** Without a collision no later record has a decision's hash, so the hash names that decision. */
  lemma NamedOnce(w: World, records: seq<Record>, i: nat)
    requires Sound(w.codec) && Linked(w.codec, records) && !LogsCollide(w.codec, records, records)
    requires i < |records| && DecisionOf(w.cfg.reader, records[i]).Some?
    ensures Names(w.cfg.reader, records, records[i].hash, i)
  {
    forall k | i < k < |records|
      ensures records[k].hash != records[i].hash
    {
      if records[k].hash == records[i].hash { SharedHashCollides(w.codec, records, i, k); }
    }
  }
}
