/** How the answers of `FindMatches` depend on the chain. */
module PrecedentTheorems {
  import opened Lists
  import opened AuditChain
  import opened Precedents

  /** No omitted pair is newer than an included one, and a pair is omitted only when the answer is full. */
  lemma NoNewerOmitted(reader: Reader, records: seq<Record>, c: Criteria, max: int, out: seq<Resolved>, i: int, j: int)
    requires IsAnswer(reader, records, c, max, out) && IsMatch(reader, records, c, i, j)
    ensures Pair(reader, records, Match(i, j)) in out ||
      (|out| == Cap(max) && forall k :: 0 <= k < |out| ==> StandsFor(reader, records, c, out[k], records[i].sequence))
  {
    var pairs: seq<Match> :|
      && ListsMatches(reader, records, c, pairs)
      && |out| == Min(Cap(max), |pairs|)
      && forall k :: 0 <= k < |out| ==> out[k] == Pair(reader, records, pairs[k]);
    assert Match(i, j) in pairs;
    var l :| 0 <= l < |pairs| && pairs[l] == Match(i, j);
    if l < |out| {
      assert out[l] == Pair(reader, records, pairs[l]);
    } else {
      forall k | 0 <= k < |out|
        ensures StandsFor(reader, records, c, out[k], records[i].sequence)
      {
        EarlierStandsFor(reader, records, c, pairs, k, l);
      }
    }
  }

  /** An earlier pair of a listing stands for a decision that is at least as new. */
  lemma EarlierStandsFor(reader: Reader, records: seq<Record>, c: Criteria, pairs: seq<Match>, k: nat, l: nat)
    requires ListsMatches(reader, records, c, pairs) && k < l < |pairs|
    ensures IsMatch(reader, records, c, pairs[k].decision, pairs[k].action)
    ensures IsMatch(reader, records, c, pairs[l].decision, pairs[l].action)
    ensures StandsFor(reader, records, c, Pair(reader, records, pairs[k]), records[pairs[l].decision].sequence)
  {
    assert DecisionSequence(records, pairs[k]) >= DecisionSequence(records, pairs[l]);
    assert pairs[k] == Match(pairs[k].decision, pairs[k].action);
  }

  /** How many precedents an answer has at most: what was asked for, or 5. */
  lemma AnswerSize(reader: Reader, records: seq<Record>, c: Criteria, max: int, out: seq<Resolved>)
    requires IsAnswer(reader, records, c, max, out)
    ensures |out| <= if max > 0 then max else 5
  {
  }

  /**
   * Every precedent comes from a passed decision and an operator's action on it, tells what both of them tell,
   * and agrees with the query: type and severity up to case, the source exactly, the tenant once normalized.
   */
  lemma AnswersTell(reader: Reader, records: seq<Record>, c: Criteria, max: int, out: seq<Resolved>, k: nat)
    returns (i: nat, j: nat)
    requires IsAnswer(reader, records, c, max, out) && k < |out|
    ensures i < |records| && j < |records|
    ensures records[i].kind in ["decision", "decision_with_precedents"] && records[j].kind == "operator_action"
    ensures reader.decision(records[i].payload).Some? && reader.action(records[j].payload).Some?
    ensures Tells(reader, records[i], records[j], c, out[k])
  {
    var pairs: seq<Match> :|
      && ListsMatches(reader, records, c, pairs)
      && |out| == Min(Cap(max), |pairs|)
      && forall l :: 0 <= l < |out| ==> out[l] == Pair(reader, records, pairs[l]);
    i, j := pairs[k].decision, pairs[k].action;
    MatchTells(reader, records, c, i, j);
  }

  lemma MatchTells(reader: Reader, records: seq<Record>, c: Criteria, i: nat, j: nat)
    requires IsMatch(reader, records, c, i, j)
    ensures records[i].kind in ["decision", "decision_with_precedents"] && records[j].kind == "operator_action"
    ensures reader.decision(records[i].payload).Some? && reader.action(records[j].payload).Some?
    ensures Tells(reader, records[i], records[j], c, Pair(reader, records, Match(i, j)))
  {
  }

  /** r tells what the decision and the action record tell, and answers the query c. */
  ghost predicate Tells(reader: Reader, decision: Record, action: Record, c: Criteria, r: Resolved)
    requires reader.decision(decision.payload).Some? && reader.action(action.payload).Some?
  {
    var d, a := reader.decision(decision.payload).value, reader.action(action.payload).value;
    && d.guardrailsStatus in ["", "pass"]
    && r.decisionHash == decision.hash == a.decisionID && r.operatorAuditHash == action.hash
    && r.eventID == d.eventID && r.eventType == d.eventType && r.sourceID == d.sourceID && r.severity == d.severity
    && r.classification == d.classification && r.suggestion == d.suggestion
    && r.operatorAction == a.action && r.annotation == a.annotation
    && reader.fold(d.eventType) == reader.fold(c.eventType) && reader.fold(d.severity) == reader.fold(c.severity)
    && r.sourceID == c.sourceID && r.tenant == NormalizeTenant(d.tenant) == NormalizeTenant(c.tenantID)
  }

  /** So a query for a tenant without spaces around its name is answered with that tenant's precedents only. */
  lemma AnswersStayInTenant(reader: Reader, records: seq<Record>, c: Criteria, max: int, out: seq<Resolved>, k: nat)
    requires IsAnswer(reader, records, c, max, out) && k < |out|
    requires |c.tenantID| > 0 && Trimmed(c.tenantID)
    ensures out[k].tenant == c.tenantID
  {
    var i, j := AnswersTell(reader, records, c, max, out, k);
    PlainTenantStays(c.tenantID);
  }

  /** r stands for a matching pair whose decision has at least the given sequence. */
  ghost predicate StandsFor(reader: Reader, records: seq<Record>, c: Criteria, r: Resolved, sequence: int) {
    exists i, j ::
      && IsMatch(reader, records, c, i, j)
      && r == Pair(reader, records, Match(i, j))
      && records[i].sequence >= sequence
  }

  /** With distinct hashes a hash stands for whichever passing decision carries it. */
  lemma NamesWithDistinctHashes(reader: Reader, records: seq<Record>, h: string, i: int)
    requires forall k, l :: 0 <= k < l < |records| ==> records[k].hash != records[l].hash
    ensures Names(reader, records, h, i) <==>
      0 <= i < |records| && DecisionOf(reader, records[i]).Some? && records[i].hash == h
  {
  }

  /** Nothing in the chain acts on the hash h. */
  ghost predicate Unnamed(reader: Reader, records: seq<Record>, h: string) {
    forall j :: 0 <= j < |records| && ActionOf(reader, records[j]).Some? ==>
      ActionOf(reader, records[j]).value.payload.decisionID != h
  }

  lemma MatchesAfter(reader: Reader, records: seq<Record>, r: Record, c: Criteria, i: int, j: int)
    requires DecisionOf(reader, r).None? || Unnamed(reader, records, r.hash)
    requires DecisionOf(reader, r).None? || ActionOf(reader, r).None?
    requires 0 <= j < |records|
    ensures IsMatch(reader, records + [r], c, i, j) <==> IsMatch(reader, records, c, i, j)
  {
    var longer := records + [r];
    assert longer[j] == records[j];
    if ActionOf(reader, records[j]).Some? {
      NamesAfter(reader, records, r, ActionOf(reader, records[j]).value.payload.decisionID, i);
      assert 0 <= i < |records| ==> longer[i] == records[i];
    }
  }

  lemma SameListings(reader: Reader, records: seq<Record>, r: Record, c: Criteria, pairs: seq<Match>)
    requires forall i, j :: IsMatch(reader, records + [r], c, i, j) <==> IsMatch(reader, records, c, i, j)
    ensures ListsMatches(reader, records + [r], c, pairs) <==> ListsMatches(reader, records, c, pairs)
  {
    var longer := records + [r];
    if forall k :: 0 <= k < |pairs| ==> IsMatch(reader, records, c, pairs[k].decision, pairs[k].action) {
      forall k | 0 <= k < |pairs|
        ensures DecisionSequence(longer, pairs[k]) == DecisionSequence(records, pairs[k])
      {
        assert longer[pairs[k].decision] == records[pairs[k].decision];
      }
    } else {
      var k :| 0 <= k < |pairs| && !IsMatch(reader, records, c, pairs[k].decision, pairs[k].action);
      assert !IsMatch(reader, longer, c, pairs[k].decision, pairs[k].action);
    }
  }

  lemma SameAnswersOneWay(reader: Reader, records: seq<Record>, r: Record, c: Criteria, max: int, out: seq<Resolved>)
    requires forall i, j :: IsMatch(reader, records + [r], c, i, j) <==> IsMatch(reader, records, c, i, j)
    ensures IsAnswer(reader, records, c, max, out) ==> IsAnswer(reader, records + [r], c, max, out)
    ensures IsAnswer(reader, records + [r], c, max, out) ==> IsAnswer(reader, records, c, max, out)
  {
    var longer := records + [r];
    forall pairs: seq<Match> | ListsMatches(reader, records, c, pairs)
      ensures ListsMatches(reader, longer, c, pairs)
      ensures forall k :: 0 <= k < |pairs| ==> Pair(reader, longer, pairs[k]) == Pair(reader, records, pairs[k])
    {
      SameListings(reader, records, r, c, pairs);
      assert forall k :: 0 <= k < |records| ==> longer[k] == records[k];
    }
    forall pairs: seq<Match> | ListsMatches(reader, longer, c, pairs)
      ensures ListsMatches(reader, records, c, pairs)
    {
      SameListings(reader, records, r, c, pairs);
    }
  }

  /**
   * Only a human action creates a precedent: a record that is not an operator action leaves every answer
   * to every query as it was, also a new decision, as long as no existing action names its hash.
   */
  lemma OnlyActionsMatter(reader: Reader, records: seq<Record>, r: Record, c: Criteria, max: int, out: seq<Resolved>)
    requires ActionOf(reader, r).None?
    requires DecisionOf(reader, r).None? || Unnamed(reader, records, r.hash)
    ensures IsAnswer(reader, records + [r], c, max, out) <==> IsAnswer(reader, records, c, max, out)
  {
    forall i, j
      ensures IsMatch(reader, records + [r], c, i, j) <==> IsMatch(reader, records, c, i, j)
    {
      if 0 <= j < |records| {
        MatchesAfter(reader, records, r, c, i, j);
      }
    }
    SameAnswersOneWay(reader, records, r, c, max, out);
  }

  /** An action record on decision d makes at most one new pair: itself with d. */
  lemma MatchesWithAction(reader: Reader, records: seq<Record>, r: Record, c: Criteria, d: int, i: int, j: int)
    requires ActionOf(reader, r).Some? && Names(reader, records, ActionOf(reader, r).value.payload.decisionID, d)
    ensures IsMatch(reader, records + [r], c, i, j) <==>
      || IsMatch(reader, records, c, i, j)
      || (i == d && j == |records| && FourDimensions(reader, DecisionOf(reader, records[d]).value.payload, c))
  {
    var longer, n := records + [r], |records|;
    if 0 <= j < n {
      MatchesAfter(reader, records, r, c, i, j);
    } else if j == n {
      NamesAfter(reader, records, r, ActionOf(reader, r).value.payload.decisionID, d);
      assert longer[n] == r && longer[d] == records[d];
      OnlyPartner(reader, longer, c, d, n);
    }
  }

  /** An operator action on decision d adds exactly the pair (d, action), and only if d meets the criteria. */
  lemma ActionAddsOnePair(reader: Reader, records: seq<Record>, r: Record, c: Criteria, d: int,
                          before: seq<Match>, after: seq<Match>)
    requires ActionOf(reader, r).Some? && Names(reader, records, ActionOf(reader, r).value.payload.decisionID, d)
    requires ListsMatches(reader, records, c, before) && ListsMatches(reader, records + [r], c, after)
    ensures
      var added := if FourDimensions(reader, DecisionOf(reader, records[d]).value.payload, c)
                   then {Match(d, |records|)} else {};
      Elems(after) == Elems(before) + added && |after| == |before| + |added|
  {
    var added := if FourDimensions(reader, DecisionOf(reader, records[d]).value.payload, c)
                 then {Match(d, |records|)} else {};
    ListingIsSet(reader, records, c, before);
    ListingIsSet(reader, records + [r], c, after);
    JoinGrowsBy(reader, records, r, c, d, Elems(before), Elems(after), added);
  }

  /** An action on a hash that no passing decision carries changes no answer to any query. */
  lemma ActionOnNothing(reader: Reader, records: seq<Record>, r: Record, c: Criteria, max: int, out: seq<Resolved>)
    requires ActionOf(reader, r).Some?
    requires forall d :: !Names(reader, records, ActionOf(reader, r).value.payload.decisionID, d)
    ensures IsAnswer(reader, records + [r], c, max, out) <==> IsAnswer(reader, records, c, max, out)
  {
    forall i, j
      ensures IsMatch(reader, records + [r], c, i, j) <==> IsMatch(reader, records, c, i, j)
    {
      if 0 <= j < |records| {
        MatchesAfter(reader, records, r, c, i, j);
      } else if j == |records| {
        NamesAfter(reader, records, r, ActionOf(reader, r).value.payload.decisionID, i);
      }
    }
    SameAnswersOneWay(reader, records, r, c, max, out);
  }

  lemma JoinGrowsBy(reader: Reader, records: seq<Record>, r: Record, c: Criteria, d: int,
                    before: set<Match>, after: set<Match>, added: set<Match>)
    requires ActionOf(reader, r).Some? && Names(reader, records, ActionOf(reader, r).value.payload.decisionID, d)
    requires forall m: Match :: m in before <==> IsMatch(reader, records, c, m.decision, m.action)
    requires forall m: Match :: m in after <==> IsMatch(reader, records + [r], c, m.decision, m.action)
    requires added == if FourDimensions(reader, DecisionOf(reader, records[d]).value.payload, c)
                      then {Match(d, |records|)} else {}
    ensures after == before + added && |after| == |before| + |added|
  {
    forall m: Match
      ensures m in after <==> m in before + added
    {
      MatchesWithAction(reader, records, r, c, d, m.decision, m.action);
    }
    assert Match(d, |records|) !in before;
    assert before !! added;
  }

  lemma ListingIsSet(reader: Reader, records: seq<Record>, c: Criteria, pairs: seq<Match>)
    requires ListsMatches(reader, records, c, pairs)
    ensures forall m: Match :: m in Elems(pairs) <==> IsMatch(reader, records, c, m.decision, m.action)
    ensures |Elems(pairs)| == |pairs|
  {
    DistinctCardinality(pairs);
    forall m: Match | m in Elems(pairs)
      ensures IsMatch(reader, records, c, m.decision, m.action)
    {
      var k :| 0 <= k < |pairs| && pairs[k] == m;
    }
  }
}
