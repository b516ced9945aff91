/** What the alert buffer accepts over a whole run since the last `Clear`. */
module AlertRuns {
  import opened Alerts

  /** The event that an alert names, if any. */
  function EventOf(a: Alert): string {
    if "event_id" in a.ref then a.ref["event_id"] else ""
  }

  /** Two alerts of one rule share a key exactly when they name the same event, or both none. */
  lemma SameRuleKeys(a: Alert, b: Alert)
    requires a.ruleID == b.ruleID
    ensures DedupeKey(a) == DedupeKey(b) <==> EventOf(a) == EventOf(b)
  {
    var head := a.ruleID + "|evt|";
    if EventOf(a) != "" { assert DedupeKey(a)[|head|..] == EventOf(a); }
    if EventOf(b) != "" { assert DedupeKey(b)[|head|..] == EventOf(b); }
  }

  lemma RuleOfKey(a: Alert)
    requires '|' !in a.ruleID
    ensures |a.ruleID| <= |DedupeKey(a)| && DedupeKey(a)[..|a.ruleID|] == a.ruleID
    ensures |a.ruleID| < |DedupeKey(a)| ==> DedupeKey(a)[|a.ruleID|] == '|'
  {
  }

  lemma NotLonger(short: string, long: string, key: string)
    requires '|' !in long && |long| <= |key| && key[..|long|] == long
    requires |short| <= |key| && (|short| < |key| ==> key[|short|] == '|')
    ensures |short| >= |long|
  {
    assert forall i :: 0 <= i < |long| ==> key[i] == long[i];
  }

  /** With rule IDs that have no '|', alerts share a key exactly when they agree in rule and event. */
  lemma KeysExactly(a: Alert, b: Alert)
    requires '|' !in a.ruleID && '|' !in b.ruleID
    ensures DedupeKey(a) == DedupeKey(b) <==> a.ruleID == b.ruleID && EventOf(a) == EventOf(b)
  {
    if DedupeKey(a) == DedupeKey(b) {
      RuleOfKey(a);
      RuleOfKey(b);
      NotLonger(a.ruleID, b.ruleID, DedupeKey(a));
      NotLonger(b.ruleID, a.ruleID, DedupeKey(a));
    }
    if a.ruleID == b.ruleID { SameRuleKeys(a, b); }
  }

  /** Without that, different rules can meet in one key. */
  lemma KeysCanMeet()
    ensures exists a: Alert, b: Alert ::
      a.ruleID != b.ruleID && EventOf(a) != EventOf(b) && DedupeKey(a) == DedupeKey(b)
  {
    var a := Alert("", "", "", "", "r", 0, map["event_id" := "e"]);
    var b := Alert("", "", "", "", "r|evt|e", 0, map[]);
    assert DedupeKey(a) == "r" + "|evt|" + "e" == b.ruleID;
  }

  /** One call of `Add`: the alert, and its two clock readings. */
  datatype Offer = Offer(alert: Alert, since: int, now: int)

  /** Within a call the clock does not run back. */
  ghost predicate CallsRun(offers: seq<Offer>) {
    forall i :: 0 <= i < |offers| ==> offers[i].since <= offers[i].now
  }

  /** Nor does it between calls. */
  ghost predicate ClockRuns(offers: seq<Offer>) {
    && CallsRun(offers)
    && forall i, j :: 0 <= i < j < |offers| ==> offers[i].now <= offers[j].since
  }

  /** The history that the calls leave, each by the contract of `Store.Add`. */
  ghost function Run(offers: seq<Offer>): seq<Entry> {
    if offers == [] then []
    else
      var n := |offers| - 1;
      Accept(Run(offers[..n]), offers[n].alert, offers[n].since, offers[n].now)
  }

  /** Offer i, once accepted, stands in the way of offer k. */
  ghost predicate Blocks(offers: seq<Offer>, i: nat, k: nat)
    requires i < k < |offers|
  {
    DedupeKey(offers[i].alert) == DedupeKey(offers[k].alert) && offers[k].since - offers[i].now < DEDUPE_WINDOW
  }

  /** `accepted` marks exactly the offers that no earlier accepted offer blocks. */
  ghost predicate Deduplicates(offers: seq<Offer>, accepted: seq<bool>) {
    && |accepted| == |offers|
    && forall k :: 0 <= k < |offers| ==> Decided(offers, accepted, k)
  }

  ghost predicate Decided(offers: seq<Offer>, accepted: seq<bool>, k: nat)
    requires k < |offers| && k < |accepted|
  {
    accepted[k] <==> !Blocked(offers, accepted, k)
  }

  ghost predicate Blocked(offers: seq<Offer>, accepted: seq<bool>, k: nat)
    requires k < |offers| && k <= |accepted|
  {
    exists i :: 0 <= i < k && accepted[i] && Blocks(offers, i, k)
  }

  /** Whether offer k is blocked depends on nothing that comes later. */
  lemma BlockedAgrees(offers: seq<Offer>, accepted: seq<bool>, others: seq<Offer>, marks: seq<bool>, k: nat)
    requires k < |offers| && k < |others| && k <= |accepted| && k <= |marks|
    requires offers[..k+1] == others[..k+1] && accepted[..k] == marks[..k]
    ensures Blocked(offers, accepted, k) <==> Blocked(others, marks, k)
  {
    assert forall i :: 0 <= i <= k ==> offers[i] == offers[..k+1][i] == others[i];
    assert forall i :: 0 <= i < k ==> accepted[i] == accepted[..k][i] == marks[i];
  }

  /** The entries of the marked offers, in order. */
  ghost function Marked(offers: seq<Offer>, accepted: seq<bool>): seq<Entry>
    requires |accepted| == |offers|
  {
    if offers == [] then []
    else
      var n := |offers| - 1;
      Marked(offers[..n], accepted[..n]) + if accepted[n] then [Entry(offers[n].alert, offers[n].now)] else []
  }

  lemma {:induction false} MarkedRecently(offers: seq<Offer>, accepted: seq<bool>, key: string, since: int)
    requires |accepted| == |offers|
    ensures RecentlyAccepted(Marked(offers, accepted), key, since) <==>
      exists i :: 0 <= i < |offers| && accepted[i] && DedupeKey(offers[i].alert) == key
                  && since - offers[i].now < DEDUPE_WINDOW
  {
    if offers != [] {
      var n := |offers| - 1;
      var front, whole := Marked(offers[..n], accepted[..n]), Marked(offers, accepted);
      MarkedRecently(offers[..n], accepted[..n], key, since);
      assert forall i :: 0 <= i < |front| ==> whole[i] == front[i];
      if RecentlyAccepted(front, key, since) {
        var i :| 0 <= i < |front| && DedupeKey(front[i].alert) == key && since - front[i].at < DEDUPE_WINDOW;
        assert whole[i] == front[i];
      }
      if accepted[n] {
        assert whole[|front|] == Entry(offers[n].alert, offers[n].now);
      }
    }
  }

  lemma DeduplicatesPrefix(offers: seq<Offer>, accepted: seq<bool>, n: nat)
    requires Deduplicates(offers, accepted) && n <= |offers|
    ensures Deduplicates(offers[..n], accepted[..n])
  {
    forall k | 0 <= k < n
      ensures Decided(offers[..n], accepted[..n], k)
    {
      assert Decided(offers, accepted, k);
      BlockedAgrees(offers, accepted, offers[..n], accepted[..n], k);
    }
  }

  lemma LastOffer(offers: seq<Offer>, accepted: seq<bool>)
    requires Deduplicates(offers, accepted) && offers != []
    ensures var n := |offers| - 1;
      accepted[n] <==>
        !RecentlyAccepted(Marked(offers[..n], accepted[..n]), DedupeKey(offers[n].alert), offers[n].since)
  {
    var n := |offers| - 1;
    assert Decided(offers, accepted, n);
    MarkedRecently(offers[..n], accepted[..n], DedupeKey(offers[n].alert), offers[n].since);
    if i :| 0 <= i < n && accepted[i] && Blocks(offers, i, n) {
      assert offers[..n][i] == offers[i] && accepted[..n][i];
    }
  }

  /** The run accepts exactly what the declarative deduplication marks. */
  lemma {:induction false} RunDeduplicates(offers: seq<Offer>, accepted: seq<bool>)
    requires Deduplicates(offers, accepted)
    ensures Run(offers) == Marked(offers, accepted)
  {
    if offers != [] {
      var n := |offers| - 1;
      DeduplicatesPrefix(offers, accepted, n);
      RunDeduplicates(offers[..n], accepted[..n]);
      LastOffer(offers, accepted);
    }
  }

  /** Every sequence of calls has a deduplication. */
  lemma {:induction false} DeduplicationExists(offers: seq<Offer>) returns (accepted: seq<bool>)
    ensures Deduplicates(offers, accepted)
  {
    if offers == [] {
      accepted := [];
    } else {
      var marks := DeduplicationExists(offers[..|offers|-1]);
      accepted := MarkLast(offers, marks);
    }
  }

  lemma MarkLast(offers: seq<Offer>, marks: seq<bool>) returns (accepted: seq<bool>)
    requires offers != [] && Deduplicates(offers[..|offers|-1], marks)
    ensures Deduplicates(offers, accepted)
  {
    var n := |offers| - 1;
    var last := !Blocked(offers, marks, n);
    accepted := marks + [last];
    LastDecided(offers, marks, last);
    forall k | 0 <= k < n
      ensures Decided(offers, accepted, k)
    {
      assert Decided(offers[..n], marks, k);
      MarkStays(offers, marks, last, k);
    }
  }

  lemma LastDecided(offers: seq<Offer>, marks: seq<bool>, last: bool)
    requires |offers| == |marks| + 1 && last == !Blocked(offers, marks, |marks|)
    ensures Decided(offers, marks + [last], |marks|)
  {
    BlockedAgrees(offers, marks, offers, marks + [last], |marks|);
  }

  lemma MarkStays(offers: seq<Offer>, marks: seq<bool>, last: bool, k: nat)
    requires k < |marks| < |offers| && Decided(offers[..|marks|], marks, k)
    ensures Decided(offers, marks + [last], k)
  {
    BlockedAgrees(offers[..|marks|], marks, offers, marks + [last], k);
  }

  /** Accepted alerts of one key stay a window apart, even if the clock steps back between calls. */
  lemma {:induction false} RunIsSpaced(offers: seq<Offer>)
    requires CallsRun(offers)
    ensures Spaced(Run(offers)) && DEDUPE_WINDOW == 45 * 1_000_000_000
  {
    if offers != [] {
      var n := |offers| - 1;
      RunIsSpaced(offers[..n]);
      AcceptKeepsSpacing(Run(offers[..n]), offers[n].alert, offers[n].since, offers[n].now);
    }
  }

  /** The history is in the order of time, and none of it is later than `now`. */
  ghost predicate Ordered(history: seq<Entry>, now: int) {
    && (forall i, j :: 0 <= i < j < |history| ==> history[i].at <= history[j].at)
    && forall i :: 0 <= i < |history| ==> history[i].at <= now
  }

  /** Under a clock that never runs back, the history is in the order of time. */
  lemma {:induction false} RunIsOrdered(offers: seq<Offer>, now: int)
    requires ClockRuns(offers) && (forall i :: 0 <= i < |offers| ==> offers[i].now <= now)
    ensures Ordered(Run(offers), now)
  {
    if offers != [] {
      var n := |offers| - 1;
      RunIsOrdered(offers[..n], offers[n].since);
      AcceptKeepsOrder(Run(offers[..n]), offers[n].alert, offers[n].since, offers[n].now, now);
    }
  }

  lemma AcceptKeepsOrder(history: seq<Entry>, a: Alert, since: int, at: int, now: int)
    requires Ordered(history, since) && since <= at <= now
    ensures Ordered(Accept(history, a, since, at), now)
  {
  }
}
