/** Precedent retrieval: pairing past decisions with the operator actions that resolved them. */
module Precedents {
  import opened Wrappers
  import opened Lists
  import opened Sorting
  import opened AuditChain

  // ---- Tenants ----

  /** Go's `unicode.IsSpace`. */
  predicate IsSpace(c: char) {
    || c in "\t\n\U{b}\U{c}\r \U{85}\U{a0}\U{1680}\U{2028}\U{2029}\U{202f}\U{205f}\U{3000}"
    || '\U{2000}' <= c <= '\U{200a}'
  }

  function TrimSpace(s: string): string {
    if |s| == 0 then ""
    else if IsSpace(s[0]) then TrimSpace(s[1..])
    else if IsSpace(s[|s|-1]) then TrimSpace(s[..|s|-1])
    else s
  }

  function NormalizeTenant(t: string): string {
    var trimmed := TrimSpace(t);
    if trimmed == "" then "default" else trimmed
  }

  predicate AllSpace(s: string) {
    forall i :: 0 <= i < |s| ==> IsSpace(s[i])
  }

  /** No space at either end. */
  predicate Trimmed(s: string) {
    |s| > 0 ==> !IsSpace(s[0]) && !IsSpace(s[|s|-1])
  }

  lemma {:induction false} TrimmedEnds(s: string)
    ensures Trimmed(TrimSpace(s))
    decreases |s|
  {
    if |s| > 0 && IsSpace(s[0]) {
      TrimmedEnds(s[1..]);
    } else if |s| > 0 && IsSpace(s[|s|-1]) {
      TrimmedEnds(s[..|s|-1]);
    }
  }

  /** s is its trimmed form with spaces around it. */
  predicate TrimsWith(s: string, a: string, kept: string, b: string) {
    s == a + kept + b && AllSpace(a) && AllSpace(b)
  }

  /** Trimming takes spaces off both ends and nothing else. */
  lemma {:induction false} TrimmedParts(s: string) returns (a: string, b: string)
    ensures TrimsWith(s, a, TrimSpace(s), b)
    decreases |s|
  {
    if |s| > 0 && IsSpace(s[0]) {
      a, b := TrimmedParts(s[1..]);
      SpaceBefore(s, a, TrimSpace(s), b);
      a := [s[0]] + a;
    } else if |s| > 0 && IsSpace(s[|s|-1]) {
      a, b := TrimmedParts(s[..|s|-1]);
      SpaceAfter(s, a, TrimSpace(s), b);
      b := b + [s[|s|-1]];
    } else {
      a, b := "", "";
      assert s == a + s + b;
    }
  }

  lemma SpaceBefore(s: string, a: string, kept: string, b: string)
    requires |s| > 0 && IsSpace(s[0]) && TrimsWith(s[1..], a, kept, b)
    ensures TrimsWith(s, [s[0]] + a, kept, b)
  {
    MoreSpace(s[0], a);
    assert s == [s[0]] + s[1..] == [s[0]] + a + kept + b;
  }

  lemma SpaceAfter(s: string, a: string, kept: string, b: string)
    requires |s| > 0 && IsSpace(s[|s|-1]) && TrimsWith(s[..|s|-1], a, kept, b)
    ensures TrimsWith(s, a, kept, b + [s[|s|-1]])
  {
    MoreSpace(s[|s|-1], b);
    assert s == s[..|s|-1] + [s[|s|-1]] == a + kept + (b + [s[|s|-1]]);
  }

  lemma MoreSpace(c: char, s: string)
    requires IsSpace(c) && AllSpace(s)
    ensures AllSpace([c] + s) && AllSpace(s + [c])
  {
  }

  lemma SpaceAround(a: string, kept: string, b: string)
    requires AllSpace(a) && AllSpace(b) && Trimmed(kept)
    ensures AllSpace(a + kept + b) <==> kept == ""
  {
    var s := a + kept + b;
    if kept != "" {
      assert s[|a|] == kept[0];
    } else {
      assert s == a + b;
    }
  }

  /** A normalized tenant is the text without the spaces around it, or "default" when nothing else is there. */
  lemma NormalizeExactly(t: string) returns (a: string, b: string)
    ensures AllSpace(t) ==> NormalizeTenant(t) == "default"
    ensures !AllSpace(t) ==>
      && TrimsWith(t, a, NormalizeTenant(t), b)
      && |NormalizeTenant(t)| > 0 && Trimmed(NormalizeTenant(t))
  {
    a, b := TrimmedParts(t);
    TrimmedEnds(t);
    SpaceAround(a, TrimSpace(t), b);
  }

  /** In particular a name without spaces around it stays as it is. */
  lemma PlainTenantStays(t: string)
    requires |t| > 0 && Trimmed(t)
    ensures NormalizeTenant(t) == t
  {
  }

  /** A normalized tenant is never empty, and normalizing it again changes nothing. */
  lemma NormalizeTwice(t: string)
    ensures NormalizeTenant(t) != ""
    ensures NormalizeTenant(NormalizeTenant(t)) == NormalizeTenant(t)
  {
    TrimmedEnds(t);
    PlainTenantStays(NormalizeTenant(t));
  }

  // ---- Chain records as FindMatches reads them ----

  datatype DecisionPayload = DecisionPayload(eventID: string, eventType: string, sourceID: string, severity: string,
                                             tenant: string, guardrailsStatus: string, classification: string,
                                             suggestion: string)

  datatype ActionPayload = ActionPayload(decisionID: string, action: string, annotation: string)

  /** How payload texts decode, None when they do not; and the case folding behind `strings.EqualFold`. */
  datatype Reader = Reader(decision: string -> Option<DecisionPayload>, action: string -> Option<ActionPayload>,
                           fold: string -> string)

  datatype Criteria = Criteria(eventType: string, sourceID: string, severity: string, tenantID: string)

  datatype DecisionRow = DecisionRow(hash: string, payload: DecisionPayload, tenant: string, sequence: nat)

  datatype ActionRow = ActionRow(payload: ActionPayload, hash: string)

  datatype Resolved = Resolved(decisionHash: string, eventID: string, eventType: string, sourceID: string,
                               severity: string, tenant: string, classification: string, suggestion: string,
                               operatorAction: string, annotation: string, operatorAuditHash: string)

  predicate IsDecisionKind(kind: string) { kind == "decision" || kind == "decision_with_precedents" }

  /** A decision that passed its guardrails; a payload without a status counts as passed. */
  function DecisionOf(reader: Reader, rec: Record): Option<DecisionRow> {
    if !IsDecisionKind(rec.kind) then None
    else match reader.decision(rec.payload)
      case None => None
      case Some(p) =>
        if p.guardrailsStatus != "" && p.guardrailsStatus != "pass" then None
        else Some(DecisionRow(rec.hash, p, NormalizeTenant(p.tenant), rec.sequence))
  }

  function ActionOf(reader: Reader, rec: Record): Option<ActionRow> {
    if rec.kind != "operator_action" then None
    else match reader.action(rec.payload)
      case None => None
      case Some(p) => if p.decisionID == "" then None else Some(ActionRow(p, rec.hash))
  }

  predicate MatchesCriteria(reader: Reader, d: DecisionRow, c: Criteria, tenant: string) {
    && c.eventType != "" && c.sourceID != "" && c.severity != ""
    && reader.fold(d.payload.eventType) == reader.fold(c.eventType)
    && d.payload.sourceID == c.sourceID
    && reader.fold(d.payload.severity) == reader.fold(c.severity)
    && (tenant != "" ==> NormalizeTenant(d.tenant) == tenant)
  }

  function Resolve(d: DecisionRow, a: ActionRow): Resolved {
    Resolved(d.hash, d.payload.eventID, d.payload.eventType, d.payload.sourceID, d.payload.severity, d.tenant,
             d.payload.classification, d.payload.suggestion, a.payload.action, a.payload.annotation, a.hash)
  }

  // ---- The declarative join ----

  /** All four dimensions agree: type and severity up to case, the source exactly, the tenant once normalized. */
  ghost predicate FourDimensions(reader: Reader, d: DecisionPayload, c: Criteria) {
    && c.eventType != "" && c.sourceID != "" && c.severity != ""
    && reader.fold(d.eventType) == reader.fold(c.eventType)
    && d.sourceID == c.sourceID
    && reader.fold(d.severity) == reader.fold(c.severity)
    && NormalizeTenant(d.tenant) == NormalizeTenant(c.tenantID)
  }

  /** Record i is the decision that hash h stands for: the last passing decision stored under it. */
  ghost predicate Names(reader: Reader, records: seq<Record>, h: string, i: int) {
    && 0 <= i < |records| && DecisionOf(reader, records[i]).Some? && records[i].hash == h
    && forall k :: i < k < |records| && records[k].hash == h ==> DecisionOf(reader, records[k]).None?
  }

  /** Record i is a matching decision, and record j an operator action on it. */
  ghost predicate IsMatch(reader: Reader, records: seq<Record>, c: Criteria, i: int, j: int) {
    && 0 <= j < |records| && ActionOf(reader, records[j]).Some?
    && Names(reader, records, ActionOf(reader, records[j]).value.payload.decisionID, i)
    && FourDimensions(reader, DecisionOf(reader, records[i]).value.payload, c)
  }

  datatype Match = Match(decision: int, action: int)

  ghost function Pair(reader: Reader, records: seq<Record>, m: Match): Resolved
    requires 0 <= m.decision < |records| && 0 <= m.action < |records|
    requires DecisionOf(reader, records[m.decision]).Some? && ActionOf(reader, records[m.action]).Some?
  {
    Resolve(DecisionOf(reader, records[m.decision]).value, ActionOf(reader, records[m.action]).value)
  }

  /** The sequence number of a pair's decision. */
  ghost function DecisionSequence(records: seq<Record>, m: Match): int {
    if 0 <= m.decision < |records| then records[m.decision].sequence else 0
  }

  /** The matching pairs, each once, newest decision first. */
  ghost predicate ListsMatches(reader: Reader, records: seq<Record>, c: Criteria, pairs: seq<Match>) {
    && Distinct(pairs)
    && (forall k :: 0 <= k < |pairs| ==> IsMatch(reader, records, c, pairs[k].decision, pairs[k].action))
    && (forall m: Match {:trigger m in pairs} :: IsMatch(reader, records, c, m.decision, m.action) ==> m in pairs)
    && forall k, l :: 0 <= k < l < |pairs| ==>
         DecisionSequence(records, pairs[k]) >= DecisionSequence(records, pairs[l])
  }

  function Cap(max: int): nat { if max <= 0 then 5 else max }

  /** Every answer that `FindMatches` may give: the first pairs of some listing of the join. */
  ghost predicate IsAnswer(reader: Reader, records: seq<Record>, c: Criteria, max: int, out: seq<Resolved>) {
    exists pairs ::
      && ListsMatches(reader, records, c, pairs)
      && |out| == Min(Cap(max), |pairs|)
      && forall k :: 0 <= k < |out| ==> out[k] == Pair(reader, records, pairs[k])
  }

  // ---- FindMatches ----

  /** The decision table after a prefix of the chain: later decisions replace earlier ones of the same hash. */
  ghost predicate IsTable(reader: Reader, records: seq<Record>, decisions: map<string, DecisionRow>) {
    && (forall h :: h in decisions ==>
          exists i :: Names(reader, records, h, i) && decisions[h] == DecisionOf(reader, records[i]).value)
    && (forall i :: 0 <= i < |records| && DecisionOf(reader, records[i]).Some? ==> records[i].hash in decisions)
  }

  /** The actions of a prefix of the chain, and where they stand. */
  ghost predicate IsActionList(reader: Reader, records: seq<Record>, actions: seq<ActionRow>, at: seq<int>) {
    && |at| == |actions| && Distinct(at)
    && (forall k :: 0 <= k < |at| ==> 0 <= at[k] < |records| && ActionOf(reader, records[at[k]]) == Some(actions[k]))
    && (forall j :: 0 <= j < |records| && ActionOf(reader, records[j]).Some? ==> j in at)
  }

  lemma NamesAfter(reader: Reader, records: seq<Record>, r: Record, h: string, i: int)
    ensures Names(reader, records + [r], h, i) <==>
      if r.hash == h && DecisionOf(reader, r).Some? then i == |records| else Names(reader, records, h, i)
  {
    var longer := records + [r];
    if 0 <= i < |records| && Names(reader, longer, h, i) {
      assert forall k :: 0 <= k < |records| ==> longer[k] == records[k];
      assert longer[|records|] == r;
    }
  }

  lemma TableAfter(reader: Reader, records: seq<Record>, r: Record, decisions: map<string, DecisionRow>)
    requires IsTable(reader, records, decisions)
    ensures DecisionOf(reader, r).None? ==> IsTable(reader, records + [r], decisions)
    ensures DecisionOf(reader, r).Some? ==>
      IsTable(reader, records + [r], decisions[r.hash := DecisionOf(reader, r).value])
  {
    var longer := records + [r];
    var table := if DecisionOf(reader, r).Some? then decisions[r.hash := DecisionOf(reader, r).value] else decisions;
    forall h | h in table
      ensures exists i :: Names(reader, longer, h, i) && table[h] == DecisionOf(reader, longer[i]).value
    {
      if h == r.hash && DecisionOf(reader, r).Some? {
        NamesAfter(reader, records, r, h, |records|);
        assert longer[|records|] == r;
      } else {
        var i :| Names(reader, records, h, i) && decisions[h] == DecisionOf(reader, records[i]).value;
        NamesAfter(reader, records, r, h, i);
        assert longer[i] == records[i];
      }
    }
    assert forall i :: 0 <= i < |longer| ==> longer[i] == if i < |records| then records[i] else r;
  }

  lemma ActionsAfter(reader: Reader, records: seq<Record>, r: Record, actions: seq<ActionRow>, at: seq<int>)
    requires IsActionList(reader, records, actions, at)
    ensures ActionOf(reader, r).None? ==> IsActionList(reader, records + [r], actions, at)
    ensures ActionOf(reader, r).Some? ==>
      IsActionList(reader, records + [r], actions + [ActionOf(reader, r).value], at + [|records|])
  {
    var longer := records + [r];
    assert forall i :: 0 <= i < |longer| ==> longer[i] == if i < |records| then records[i] else r;
    if ActionOf(reader, r).Some? {
      var at' := at + [|records|];
      assert at'[|at|] == |records|;
      assert forall j :: j in at ==> j in at';
    }
  }

  method ScanChain(reader: Reader, records: seq<Record>)
    returns (decisions: map<string, DecisionRow>, actions: seq<ActionRow>, ghost at: seq<int>)
    ensures IsTable(reader, records, decisions) && IsActionList(reader, records, actions, at)
  {
    decisions, actions, at := map[], [], [];
    for i := 0 to |records|
      invariant IsTable(reader, records[..i], decisions)
      invariant IsActionList(reader, records[..i], actions, at)
    {
      ghost var before := records[..i];
      decisions, actions, at := ScanRecord(reader, before, records[i], decisions, actions, at);
      assert records[..i+1] == before + [records[i]];
    }
    assert records[..|records|] == records;
  }

  /** One record of the scan: decisions enter the table, actions the list, everything else is skipped. */
  method ScanRecord(reader: Reader, ghost before: seq<Record>, rec: Record, decisions: map<string, DecisionRow>,
                    actions: seq<ActionRow>, ghost at: seq<int>)
    returns (decisions': map<string, DecisionRow>, actions': seq<ActionRow>, ghost at': seq<int>)
    requires IsTable(reader, before, decisions) && IsActionList(reader, before, actions, at)
    ensures IsTable(reader, before + [rec], decisions') && IsActionList(reader, before + [rec], actions', at')
  {
    TableAfter(reader, before, rec, decisions);
    ActionsAfter(reader, before, rec, actions, at);
    decisions', actions', at' := decisions, actions, at;
    var d, a := DecisionOf(reader, rec), ActionOf(reader, rec);
    if d.Some? {
      decisions' := decisions[rec.hash := d.value];
    } else if a.Some? {
      actions', at' := actions + [a.value], at + [|before|];
    }
  }

  /** The pairs found among the first n actions. */
  ghost predicate JoinedSoFar(reader: Reader, records: seq<Record>, c: Criteria, at: seq<int>, n: nat,
                              pairs: seq<Match>, out: seq<Resolved>)
    requires n <= |at|
  {
    && Distinct(pairs) && |out| == |pairs|
    && (forall k :: 0 <= k < |pairs| ==>
          && IsMatch(reader, records, c, pairs[k].decision, pairs[k].action)
          && pairs[k].action in at[..n]
          && out[k] == Pair(reader, records, pairs[k]))
    && (forall i, j :: IsMatch(reader, records, c, i, j) && j in at[..n] ==> Match(i, j) in pairs)
  }

  lemma NamesUnique(reader: Reader, records: seq<Record>, h: string, i: int, k: int)
    requires Names(reader, records, h, i) && Names(reader, records, h, k)
    ensures i == k
  {
  }

  lemma JoinMiss(reader: Reader, records: seq<Record>, c: Criteria, at: seq<int>, n: nat,
                 pairs: seq<Match>, out: seq<Resolved>)
    requires n < |at| && JoinedSoFar(reader, records, c, at, n, pairs, out)
    requires forall i :: !IsMatch(reader, records, c, i, at[n])
    ensures JoinedSoFar(reader, records, c, at, n + 1, pairs, out)
  {
    assert at[..n+1] == at[..n] + [at[n]];
  }

  lemma JoinHit(reader: Reader, records: seq<Record>, c: Criteria, at: seq<int>, n: nat,
                pairs: seq<Match>, out: seq<Resolved>, i: int)
    requires n < |at| && Distinct(at) && JoinedSoFar(reader, records, c, at, n, pairs, out)
    requires forall k :: IsMatch(reader, records, c, k, at[n]) <==> k == i
    ensures IsMatch(reader, records, c, i, at[n])
    ensures JoinedSoFar(reader, records, c, at, n + 1, pairs + [Match(i, at[n])],
                        out + [Pair(reader, records, Match(i, at[n]))])
  {
    assert at[..n+1] == at[..n] + [at[n]];
    assert at[n] !in at[..n];
    assert IsMatch(reader, records, c, i, at[n]);
    NewPair(pairs, Match(i, at[n]), at[..n]);
  }

  lemma NewPair(pairs: seq<Match>, m: Match, seen: seq<int>)
    requires Distinct(pairs) && m.action !in seen
    requires forall k :: 0 <= k < |pairs| ==> pairs[k].action in seen
    ensures Distinct(pairs + [m])
    ensures forall p :: p in pairs + [m] <==> p in pairs || p == m
  {
  }

  /** The code compares normalized tenants, one of them normalized twice; that is the fourth dimension. */
  lemma CriteriaAreDimensions(reader: Reader, d: DecisionRow, c: Criteria)
    requires d.tenant == NormalizeTenant(d.payload.tenant)
    ensures MatchesCriteria(reader, d, c, NormalizeTenant(c.tenantID)) <==> FourDimensions(reader, d.payload, c)
  {
    NormalizeTwice(c.tenantID);
    NormalizeTwice(d.payload.tenant);
  }

  /** An action's only possible partner is the decision that its hash stands for. */
  lemma OnlyPartner(reader: Reader, records: seq<Record>, c: Criteria, i: int, j: int)
    requires 0 <= j < |records| && ActionOf(reader, records[j]).Some?
    requires Names(reader, records, ActionOf(reader, records[j]).value.payload.decisionID, i)
    ensures forall k :: IsMatch(reader, records, c, k, j) <==>
      k == i && FourDimensions(reader, DecisionOf(reader, records[i]).value.payload, c)
  {
    forall k | IsMatch(reader, records, c, k, j)
      ensures k == i
    {
      NamesUnique(reader, records, ActionOf(reader, records[j]).value.payload.decisionID, i, k);
    }
  }

  lemma TableRow(reader: Reader, records: seq<Record>, decisions: map<string, DecisionRow>, h: string) returns (i: int)
    requires IsTable(reader, records, decisions) && h in decisions
    ensures Names(reader, records, h, i) && DecisionOf(reader, records[i]) == Some(decisions[h])
    ensures decisions[h].tenant == NormalizeTenant(decisions[h].payload.tenant)
  {
    i :| Names(reader, records, h, i) && decisions[h] == DecisionOf(reader, records[i]).value;
  }

  lemma NoPartner(reader: Reader, records: seq<Record>, c: Criteria, decisions: map<string, DecisionRow>, j: int)
    requires IsTable(reader, records, decisions)
    requires 0 <= j < |records| && ActionOf(reader, records[j]).Some?
    requires ActionOf(reader, records[j]).value.payload.decisionID !in decisions
    ensures forall k :: !IsMatch(reader, records, c, k, j)
  {
  }

  method Join(reader: Reader, records: seq<Record>, c: Criteria, decisions: map<string, DecisionRow>,
              actions: seq<ActionRow>, ghost at: seq<int>)
    returns (out: seq<Resolved>, ghost pairs: seq<Match>)
    requires IsTable(reader, records, decisions) && IsActionList(reader, records, actions, at)
    ensures JoinedSoFar(reader, records, c, at, |at|, pairs, out)
  {
    var tenant := NormalizeTenant(c.tenantID);
    out, pairs := [], [];
    for n := 0 to |actions|
      invariant JoinedSoFar(reader, records, c, at, n, pairs, out)
    {
      var act := actions[n];
      if act.payload.decisionID !in decisions {
        NoPartner(reader, records, c, decisions, at[n]);
        JoinMiss(reader, records, c, at, n, pairs, out);
        continue;
      }
      var d := decisions[act.payload.decisionID];
      ghost var i := TableRow(reader, records, decisions, act.payload.decisionID);
      CriteriaAreDimensions(reader, d, c);
      OnlyPartner(reader, records, c, i, at[n]);
      if !MatchesCriteria(reader, d, c, tenant) {
        JoinMiss(reader, records, c, at, n, pairs, out);
        continue;
      }
      JoinHit(reader, records, c, at, n, pairs, out, i);
      out := out + [Resolve(d, act)];
      pairs := pairs + [Match(i, at[n])];
    }
  }

  /** Reordering the pairs keeps the listing complete and without repeats. */
  lemma ReorderedListing(reader: Reader, records: seq<Record>, c: Criteria, pairs: seq<Match>, order: seq<nat>)
    returns (listing: seq<Match>)
    requires Distinct(pairs) && IsOrdering(order, |pairs|)
    requires forall k :: 0 <= k < |pairs| ==> IsMatch(reader, records, c, pairs[k].decision, pairs[k].action)
    requires forall i, j :: IsMatch(reader, records, c, i, j) ==> Match(i, j) in pairs
    requires forall k, l :: 0 <= k < l < |pairs| ==>
      DecisionSequence(records, pairs[order[k]]) >= DecisionSequence(records, pairs[order[l]])
    ensures ListsMatches(reader, records, c, listing) && |listing| == |pairs|
    ensures forall k :: 0 <= k < |pairs| ==> listing[k] == pairs[order[k]]
  {
    listing := seq(|pairs|, k requires 0 <= k < |pairs| => pairs[order[k]]);
    ReorderedPairs(pairs, order, listing);
    assert forall k :: 0 <= k < |listing| ==> listing[k] in listing;
  }

  /** Listing different pairs in another order repeats none and keeps them all. */
  lemma ReorderedPairs(pairs: seq<Match>, order: seq<nat>, listing: seq<Match>)
    requires Distinct(pairs) && IsOrdering(order, |pairs|) && |listing| == |pairs|
    requires forall k :: 0 <= k < |pairs| ==> listing[k] == pairs[order[k]]
    ensures Distinct(listing)
    ensures forall m :: m in pairs <==> m in listing
  {
    forall m | m in pairs
      ensures m in listing
    {
      var k: nat :| k < |pairs| && pairs[k] == m;
      assert k in order;
      var l :| 0 <= l < |order| && order[l] == k;
      assert listing[l] == m;
    }
  }

  /** The sort key of a result is the sequence of the decision that it stands for. */
  lemma KeyOfPair(reader: Reader, records: seq<Record>, c: Criteria, decisions: map<string, DecisionRow>, m: Match)
    requires IsTable(reader, records, decisions) && IsMatch(reader, records, c, m.decision, m.action)
    ensures
      var h := Pair(reader, records, m).decisionHash;
      h in decisions && decisions[h].sequence == records[m.decision].sequence
  {
    var h := records[m.decision].hash;
    assert h in decisions;
    var l :| Names(reader, records, h, l) && decisions[h] == DecisionOf(reader, records[l]).value;
    NamesUnique(reader, records, h, m.decision, l);
  }

  /** `FindMatches` over a snapshot of the chain. */
  method FindMatches(reader: Reader, records: seq<Record>, c: Criteria, max: int) returns (out: seq<Resolved>)
    ensures IsAnswer(reader, records, c, max, out)
  {
    var decisions, actions, at := ScanChain(reader, records);
    ghost var pairs;
    out, pairs := Join(reader, records, c, decisions, actions, at);
    var key := (r: Resolved) => if r.decisionHash in decisions then decisions[r.decisionHash].sequence else 0;
    var sorted, order := SortSlice(key, out);
    KeysOfPairs(reader, records, c, decisions, at, pairs, out, key);
    ghost var listing := SortedListing(reader, records, c, at, pairs, out, sorted, order, key);
    out := Take(sorted, Cap(max));
  }

  /** The keys of the results are the sequences of the decisions that they stand for. */
  lemma KeysOfPairs(reader: Reader, records: seq<Record>, c: Criteria, decisions: map<string, DecisionRow>,
                    at: seq<int>, pairs: seq<Match>, out: seq<Resolved>, key: Resolved -> int)
    requires IsTable(reader, records, decisions) && JoinedSoFar(reader, records, c, at, |at|, pairs, out)
    requires forall r: Resolved :: r.decisionHash in decisions ==> key(r) == decisions[r.decisionHash].sequence
    ensures forall k :: 0 <= k < |pairs| ==> key(out[k]) == DecisionSequence(records, pairs[k])
  {
    forall k | 0 <= k < |pairs|
      ensures key(out[k]) == DecisionSequence(records, pairs[k])
    {
      KeyOfPair(reader, records, c, decisions, pairs[k]);
    }
  }

  lemma SortedListing(reader: Reader, records: seq<Record>, c: Criteria, at: seq<int>,
                      pairs: seq<Match>, out: seq<Resolved>, sorted: seq<Resolved>, order: seq<nat>,
                      key: Resolved -> int)
    returns (listing: seq<Match>)
    requires JoinedSoFar(reader, records, c, at, |at|, pairs, out)
    requires forall j :: 0 <= j < |records| && ActionOf(reader, records[j]).Some? ==> j in at
    requires IsOrdering(order, |out|) && |sorted| == |out|
    requires forall k :: 0 <= k < |out| ==> sorted[k] == out[order[k]]
    requires Descending(key, sorted)
    requires forall k :: 0 <= k < |pairs| ==> key(out[k]) == DecisionSequence(records, pairs[k])
    ensures ListsMatches(reader, records, c, listing) && |listing| == |sorted|
    ensures forall k :: 0 <= k < |sorted| ==> sorted[k] == Pair(reader, records, listing[k])
  {
    assert at[..|at|] == at;
    forall k, l | 0 <= k < l < |pairs|
      ensures DecisionSequence(records, pairs[order[k]]) >= DecisionSequence(records, pairs[order[l]])
    {
      assert key(sorted[k]) >= key(sorted[l]);
    }
    listing := ReorderedListing(reader, records, c, pairs, order);
  }
}
