/** What the three scores of a digest mean. */
module ScoreTheorems {
  import opened Wrappers
  import opened Lists
  import opened Canonical
  import opened Digests
  import opened StrategyTheorems
  import opened FreshnessTheorems
  import opened DiversityTheorems

  /** The scores are those of the selection, which comes from the input. */
  lemma OutcomeScores(req: Request, clock: int, d: Digest)
    requires SelectOutcome(req, clock, Ok(d))
    ensures forall e :: e in d.selected ==> e in req.events
    ensures d.freshness == FreshnessScore(d.selected, req.events, ReferenceTime(req, clock))
    ensures d.diversity == DiversityScore(d.selected, req.events)
    ensures d.redundancy == Ratio(Max(0, |req.events| - |Pool(req)|), |req.events|)
  {
    SelectShape(req, clock, d);
    var picked :| Picks(req, Pool(req), picked) && d == Summary(req, clock, picked);
  }

  /** A request is refused exactly for a negative K or an unknown strategy. */
  lemma RefusedExactly(req: Request, clock: int, res: Result<Digest>)
    requires SelectOutcome(req, clock, res)
    ensures res.Err? <==> req.k < 0 || req.strategy !in {1, 2, 3, 4, 5, 6}
  {
  }

  /** The clock matters only to a request that leaves its time unset, and then as if it had set it so. */
  lemma ClockOnlyIfUnset(req: Request, clock: int, other: int, picked: seq<Event>)
    ensures req.now != ZERO_TIME ==> Summary(req, clock, picked) == Summary(req, other, picked)
    ensures req.now == ZERO_TIME && clock != ZERO_TIME ==>
      Summary(req, clock, picked) == Summary(req.(now := clock), other, picked)
  {
  }

  // ---- Diversity ----

  lemma FractionOf(a: nat, n: nat)
    requires a <= n && n > 0
    ensures a as real / n as real == 1.0 <==> a == n
    ensures a as real / n as real == 0.0 <==> a == 0
  {
    if a < n { StrictQuotient(a as real, n as real, n as real); }
    if a > 0 { StrictQuotient(0.0, a as real, n as real); }
  }

  /** Diversity is the share of the input's sources that the digest shows, and 1 exactly when it shows them all. */
  lemma DiversityExactly(req: Request, clock: int, d: Digest)
    requires SelectOutcome(req, clock, Ok(d)) && |req.events| > 0
    ensures |Sources(req.events)| > 0 && d.diversity == |Sources(d.selected)| as real / |Sources(req.events)| as real
    ensures d.diversity == 1.0 <==> Sources(d.selected) == Sources(req.events)
    ensures d.diversity == 0.0 <==> d.selected == []
  {
    OutcomeScores(req, clock, d);
    DiversityOf(d.selected, req.events);
  }

  lemma DiversityOf(selected: seq<Event>, all: seq<Event>)
    requires |all| > 0 && forall e :: e in selected ==> e in all
    ensures |Sources(all)| > 0 && DiversityScore(selected, all) == |Sources(selected)| as real / |Sources(all)| as real
    ensures DiversityScore(selected, all) == 1.0 <==> Sources(selected) == Sources(all)
    ensures DiversityScore(selected, all) == 0.0 <==> selected == []
  {
    assert all[0].sourceID in Sources(all);
    assert Sources(selected) <= Sources(all);
    SubsetCardinality(Sources(selected), Sources(all));
    FractionOf(|Sources(selected)|, |Sources(all)|);
    if selected != [] { assert selected[0].sourceID in Sources(selected); }
  }

  /** For strategies 2 and 3 that share is as large as K and the suppression allow. */
  lemma MaximalDiversityScore(req: Request, clock: int, d: Digest)
    requires req.strategy == LATEST_PER_SOURCE || req.strategy == HYBRID
    requires SelectOutcome(req, clock, Ok(d)) && |req.events| > 0
    ensures |Sources(req.events)| > 0
    ensures d.diversity == Min(req.k, |Sources(Pool(req))|) as real / |Sources(req.events)| as real
  {
    DiversityExactly(req, clock, d);
    MaximalDiversity(req, clock, d, []);
  }

  /** No events, no diversity. */
  lemma EmptyDiversity(req: Request, clock: int, d: Digest)
    requires SelectOutcome(req, clock, Ok(d)) && req.events == []
    ensures d.diversity == 0.0 && d.redundancy == 0.0 && d.freshness == 0.0
  {
    OutcomeScores(req, clock, d);
  }

  // ---- Redundancy ----

  /** How many events of the input are suppressed. */
  ghost function SuppressedCount(events: seq<Event>, suppress: set<string>): nat {
    if |events| == 0 then 0
    else SuppressedCount(events[1..], suppress) + if events[0].eventID in suppress then 1 else 0
  }

  /** It is 0 exactly when no event is suppressed, and all there are exactly when all events are. */
  lemma {:induction false} SuppressedCountExactly(events: seq<Event>, suppress: set<string>)
    ensures |Unsuppressed(events, suppress)| + SuppressedCount(events, suppress) == |events|
    ensures SuppressedCount(events, suppress) == 0 <==> forall e :: e in events ==> e.eventID !in suppress
    ensures SuppressedCount(events, suppress) == |events| <==> forall e :: e in events ==> e.eventID in suppress
  {
    if |events| > 0 {
      SuppressedCountExactly(events[1..], suppress);
      UnsuppressedConcat([events[0]], events[1..], suppress);
      UnsuppressedOne(events[0], suppress);
      assert events == [events[0]] + events[1..];
    }
  }

  /** Redundancy is the suppressed share of the input: 0 exactly when nothing is suppressed, 1 when everything is. */
  lemma RedundancyExactly(req: Request, clock: int, d: Digest)
    requires SelectOutcome(req, clock, Ok(d)) && |req.events| > 0
    ensures
      var count, n := SuppressedCount(req.events, req.suppressionSet), |req.events|;
      && d.redundancy == count as real / n as real
      && (d.redundancy == 0.0 <==> count == 0)
      && (d.redundancy == 1.0 <==> count == n)
  {
    RedundancyShare(req, clock, d);
    CountOfPool(req);
    FractionOf(SuppressedCount(req.events, req.suppressionSet), |req.events|);
  }

  lemma RedundancyShare(req: Request, clock: int, d: Digest)
    requires SelectOutcome(req, clock, Ok(d)) && |req.events| > 0
    ensures d.redundancy == SuppressedCount(req.events, req.suppressionSet) as real / |req.events| as real
  {
    var picked :| Picks(req, Pool(req), picked) && d == Summary(req, clock, picked);
    SummaryRedundancy(req, clock, picked);
  }

  lemma SummaryRedundancy(req: Request, clock: int, picked: seq<Event>)
    requires |req.events| > 0
    ensures Summary(req, clock, picked).redundancy
         == SuppressedCount(req.events, req.suppressionSet) as real / |req.events| as real
  {
    CountOfPool(req);
  }

  lemma CountOfPool(req: Request)
    ensures |Pool(req)| + SuppressedCount(req.events, req.suppressionSet) == |req.events|
  {
    SuppressedCountExactly(req.events, req.suppressionSet);
  }

  // ---- Freshness ----

  /** The greatest age in the input at the reference time. */
  ghost predicate IsGreatestAge(all: seq<Event>, ref: int, age: nat) {
    && (forall e :: e in all ==> e.AgeAt(ref) <= age)
    && exists e :: e in all && e.AgeAt(ref) == age
  }

  lemma {:induction false} MaxAgeIsGreatest(all: seq<Event>, ref: int)
    requires |all| > 0
    ensures IsGreatestAge(all, ref, MaxAge(all, ref))
  {
    var n := |all| - 1;
    assert all == all[..n] + [all[n]];
    assert all[n] in all;
    if n > 0 {
      MaxAgeIsGreatest(all[..n], ref);
    } else {
      assert all[..n] == [];
    }
  }

  ghost function AgeOf(ref: int): Event -> real { (e: Event) => e.AgeAt(ref) as real }

  lemma AddQuotients(a: real, b: real, d: real)
    requires d > 0.0
    ensures a / d + b / d == (a + b) / d
  {
  }

  /** The total freshness is the number of events less their total age over the greatest one. */
  lemma {:induction false} FreshnessTotals(s: seq<Event>, greatest: nat, ref: int)
    requires greatest > 0
    ensures SumOf(Freshness(greatest, ref), s) == |s| as real - SumOf(AgeOf(ref), s) / greatest as real
  {
    if |s| > 0 {
      FreshnessTotals(s[..|s|-1], greatest, ref);
      AddQuotients(SumOf(AgeOf(ref), s[..|s|-1]), s[|s|-1].AgeAt(ref) as real, greatest as real);
    }
  }

  /** Terms between 0 and 1 add up to 0 only if all are 0, and to their number only if all are 1. */
  lemma {:induction false} SumExtremes(w: Event -> real, s: seq<Event>)
    requires forall e :: e in s ==> 0.0 <= w(e) <= 1.0
    ensures 0.0 <= SumOf(w, s) <= |s| as real
    ensures SumOf(w, s) == 0.0 <==> forall e :: e in s ==> w(e) == 0.0
    ensures SumOf(w, s) == |s| as real <==> forall e :: e in s ==> w(e) == 1.0
  {
    if |s| > 0 {
      var front, last := s[..|s|-1], s[|s|-1];
      assert s == front + [last];
      SumExtremes(w, front);
    }
  }

  lemma OneFreshness(age: nat, greatest: nat)
    requires age <= greatest && greatest > 0
    ensures
      var f := 1.0 - age as real / greatest as real;
      0.0 <= f <= 1.0 && (f == 0.0 <==> age == greatest) && (f == 1.0 <==> age == 0)
  {
    FractionWithin(age as real, greatest as real);
    FractionOf(age, greatest);
  }

  lemma UnitQuotient(n: real)
    requires n > 0.0
    ensures n / n == 1.0 && 0.0 / n == 0.0
  {
  }

  lemma QuotientIs(a: real, d: real, q: real)
    requires d > 0.0 && q * d == a
    ensures a / d == q
  {
  }

  lemma SwapDivisors(a: real, x: real, y: real)
    requires x > 0.0 && y > 0.0
    ensures a / x / y == a / y / x
  {
    var q := a / x / y;
    assert (q * y) * x == a;
    assert (q * x) * y == (q * y) * x;
    QuotientIs(a, y, q * x);
    QuotientIs(q * x, x, q);
  }

  lemma MeanOf(total: real, ages: real, n: real, greatest: real)
    requires n > 0.0 && greatest > 0.0 && total == n - ages / greatest
    ensures total / n == 1.0 - ages / n / greatest
    ensures total / n == 0.0 <==> total == 0.0
    ensures total / n == 1.0 <==> total == n
  {
    SwapDivisors(ages, greatest, n);
    AddQuotients(total, ages / greatest, n);
    UnitQuotient(n);
    if total < 0.0 { StrictQuotient(total, 0.0, n); }
    if total > 0.0 { StrictQuotient(0.0, total, n); }
    if total < n { StrictQuotient(total, n, n); }
    if total > n { StrictQuotient(n, total, n); }
  }

  /**
   * Freshness is one less the mean age over the greatest age in the input. It is 1 exactly when every selected
   * event has age 0, and 0 exactly when the greatest age is positive and every selected event has it.
   */
  lemma FreshnessExactly(req: Request, clock: int, d: Digest, greatest: nat)
    requires SelectOutcome(req, clock, Ok(d)) && d.selected != []
    requires IsGreatestAge(req.events, ReferenceTime(req, clock), greatest)
    ensures IsFreshness(d.selected, ReferenceTime(req, clock), greatest, d.freshness)
  {
    OutcomeScores(req, clock, d);
    FreshnessOf(d.selected, req.events, ReferenceTime(req, clock), greatest);
  }

  ghost predicate IsFreshness(s: seq<Event>, ref: int, greatest: nat, score: real)
    requires s != []
  {
    && (greatest > 0 ==> score == 1.0 - SumOf(AgeOf(ref), s) / |s| as real / greatest as real)
    && (score == 1.0 <==> forall e :: e in s ==> e.AgeAt(ref) == 0)
    && (score == 0.0 <==> greatest > 0 && forall e :: e in s ==> e.AgeAt(ref) == greatest)
  }

  lemma FreshnessOf(s: seq<Event>, all: seq<Event>, ref: int, greatest: nat)
    requires s != [] && (forall e :: e in s ==> e in all) && IsGreatestAge(all, ref, greatest)
    ensures IsFreshness(s, ref, greatest, FreshnessScore(s, all, ref))
  {
    assert s[0] in s && s[0] in all;
    SameGreatest(all, ref, greatest);
    if greatest > 0 {
      PositiveAges(s, ref, greatest);
    }
  }

  lemma PositiveAges(s: seq<Event>, ref: int, greatest: nat)
    requires s != [] && greatest > 0 && forall e :: e in s ==> e.AgeAt(ref) <= greatest
    ensures IsFreshness(s, ref, greatest, SumOf(Freshness(greatest, ref), s) / |s| as real)
  {
    var w := Freshness(greatest, ref);
    forall e | e in s
      ensures 0.0 <= w(e) <= 1.0 && (w(e) == 0.0 <==> e.AgeAt(ref) == greatest) && (w(e) == 1.0 <==> e.AgeAt(ref) == 0)
    {
      OneFreshness(e.AgeAt(ref), greatest);
    }
    SumExtremes(w, s);
    FreshnessTotals(s, greatest, ref);
    MeanOf(SumOf(w, s), SumOf(AgeOf(ref), s), |s| as real, greatest as real);
  }

  lemma SameGreatest(all: seq<Event>, ref: int, greatest: nat)
    requires |all| > 0 && IsGreatestAge(all, ref, greatest)
    ensures greatest == MaxAge(all, ref)
  {
    MaxAgeIsGreatest(all, ref);
  }

  /** An empty digest scores 0. */
  lemma EmptyFreshness(req: Request, clock: int, d: Digest)
    requires SelectOutcome(req, clock, Ok(d)) && d.selected == []
    ensures d.freshness == 0.0
  {
    OutcomeScores(req, clock, d);
  }
}
