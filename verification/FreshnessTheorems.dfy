/**
 * How fresh strategy 4 is: against strategy 5, against other percentages, and against every digest that it
 * could have returned.
 */
module FreshnessTheorems {
  import opened Wrappers
  import opened Lists
  import opened Sorting
  import opened Canonical
  import opened Digests
  import opened DigestFacts
  import opened Optimality
  import opened StrategyTheorems
  import Curation

  // ---- Scores from totals ----

  lemma DivideBoth(x: real, y: real, d: real)
    requires x <= y && d > 0.0
    ensures x / d <= y / d
  {
  }

  lemma FreshnessMonotone(maxAge: nat, ref: int)
    requires maxAge > 0
    ensures Monotone(Freshness(maxAge, ref))
  {
    var w := Freshness(maxAge, ref);
    forall d: Event, e: Event | d.timestamp <= e.timestamp
      ensures w(d) <= w(e)
    {
      DivideBoth(e.AgeAt(ref) as real, d.AgeAt(ref) as real, maxAge as real);
    }
  }

  lemma ScoreUnsorted(s: seq<Event>, all: seq<Event>, ref: int)
    ensures FreshnessScore(NewestFirst(s), all, ref) == FreshnessScore(s, all, ref)
  {
    if MaxAge(all, ref) > 0 { SumOfSorted(Freshness(MaxAge(all, ref), ref), Stamp, s); }
  }

  /** Of two selections of one size, the one of greater total freshness has the greater score. */
  lemma TotalsOrderScores(a: seq<Event>, b: seq<Event>, all: seq<Event>, ref: int)
    requires |a| == |b|
    requires MaxAge(all, ref) > 0 ==>
      SumOf(Freshness(MaxAge(all, ref), ref), a) >= SumOf(Freshness(MaxAge(all, ref), ref), b)
    ensures FreshnessScore(NewestFirst(a), all, ref) >= FreshnessScore(NewestFirst(b), all, ref)
  {
    ScoreUnsorted(a, all, ref);
    ScoreUnsorted(b, all, ref);
    if |a| > 0 && |all| > 0 && MaxAge(all, ref) > 0 {
      var w := Freshness(MaxAge(all, ref), ref);
      DivideBoth(SumOf(w, b), SumOf(w, a), |a| as real);
    }
  }

  // ---- Lower floors are fresher ----

  /** Two oldest-first orders of the same heads have the same timestamps. */
  lemma OldestFirstAgree(pool: seq<Event>, a: seq<Event>, b: seq<Event>)
    requires Heads(pool, a) && Descending(Staleness, a)
    requires Heads(pool, b) && Descending(Staleness, b)
    ensures SameTimes(a, b)
  {
    HeadsAmong(pool, a, b);
    HeadsAmong(pool, b, a);
    forall i | 0 <= i < |a|
      ensures a[i].timestamp == b[i].timestamp
    {
      NoneAhead(a, b, i);
      NoneAhead(b, a, i);
    }
  }

  ghost predicate SameTimes(a: seq<Event>, b: seq<Event>) {
    |a| == |b| && forall i :: 0 <= i < |a| ==> a[i].timestamp == b[i].timestamp
  }

  lemma HeadsAmong(pool: seq<Event>, a: seq<Event>, b: seq<Event>)
    requires Heads(pool, a) && Heads(pool, b)
    ensures |a| == |b| && Distinct(b) && forall e :: e in b ==> e in a
  {
    HeadsFacts(pool, a);
    HeadsFacts(pool, b);
    forall e | e in b
      ensures e in a
    {
      assert e.sourceID in Sources(a);
      var l :| 0 <= l < |a| && a[l].sourceID == e.sourceID;
      assert a[l] in a;
    }
  }

  lemma NoneAhead(a: seq<Event>, b: seq<Event>, i: nat)
    requires Descending(Staleness, a) && Descending(Staleness, b) && Distinct(b)
    requires i < |a| && i < |b| && forall e :: e in b ==> e in a
    ensures a[i].timestamp <= b[i].timestamp
  {
    if a[i].timestamp > b[i].timestamp {
      var first := b[..i+1];
      forall e | e in first
        ensures e in a[..i]
      {
        var j :| 0 <= j < i + 1 && first[j] == e;
        assert b[j] == e && e in a;
        assert j < i ==> Staleness(b[j]) >= Staleness(b[i]);
        EarlierThan(a, i, e);
      }
      DistinctCardinality(first);
      DistinctCardinality(a[..i]);
      SubsetCardinality(Elems(first), Elems(a[..i]));
      assert false;
    }
  }

  lemma EarlierThan(a: seq<Event>, i: nat, e: Event)
    requires Descending(Staleness, a) && i < |a| && e in a && e.timestamp < a[i].timestamp
    ensures e in a[..i]
  {
    var l :| 0 <= l < |a| && a[l] == e;
    assert l > i ==> Staleness(a[i]) >= Staleness(a[l]);
    assert a[..i][l] == e;
  }

  lemma CoreSize(pool: seq<Event>, k: nat, toDrop: nat, ranked: seq<Event>)
    requires Consistent(pool) && Heads(pool, ranked) && toDrop <= |ranked| && k >= 1
    ensures |CoreDigest(pool, k, toDrop, ranked)| == Min(k, |IDs(pool)|)
  {
    CoreDigestShape(pool, k, toDrop, ranked);
  }

  /** With fewer slots than survivors under both floors, the lower floor's window starts later. */
  lemma LaterWindow(k: nat, c: nat, a: seq<Event>, d: nat, b: seq<Event>, w: Event -> real)
    requires Descending(Staleness, a) && SameTimes(a, b) && Monotone(w)
    requires d <= c && k >= 1 && c + k <= |a|
    ensures SumOf(w, a[c..c+k]) >= SumOf(w, b[d..d+k])
  {
    var x, y := a[c..c+k], b[d..d+k];
    forall i | 0 <= i < |x|
      ensures w(x[i]) >= w(y[i])
    {
      assert d < c ==> Staleness(a[d+i]) >= Staleness(a[c+i]);
      assert a[d+i].timestamp == b[d+i].timestamp;
    }
    PointwiseSum(w, x, y);
  }

  /** Giving up more of the oldest heads never lowers the total of a monotone weight, whatever K is. */
  lemma LowerFloorFresher(pool: seq<Event>, k: nat, c: nat, a: seq<Event>, d: nat, b: seq<Event>, w: Event -> real)
    requires Consistent(pool) && k >= 1 && Monotone(w)
    requires Heads(pool, a) && Descending(Staleness, a) && Heads(pool, b) && Descending(Staleness, b)
    requires d <= c <= |a| && |a| == |b|
    ensures |CoreDigest(pool, k, c, a)| == |CoreDigest(pool, k, d, b)|
    ensures SumOf(w, CoreDigest(pool, k, c, a)) >= SumOf(w, CoreDigest(pool, k, d, b))
  {
    CoreSize(pool, k, c, a);
    CoreSize(pool, k, d, b);
    if k < |a| - c {
      TruncatedCore(pool, k, c, a);
      TruncatedCore(pool, k, d, b);
      OldestFirstAgree(pool, a, b);
      LaterWindow(k, c, a, d, b, w);
    } else {
      if k < |b| - d {
        TruncatedRival(pool, k, d, b);
      } else {
        CoreIsRival(pool, k, d, b);
      }
      Strategy4MaximisesWeight(pool, k, c, a, CoreDigest(pool, k, d, b), w);
    }
  }

  /** The order of the heads behind a digest of strategy 4. */
  lemma OldestFirstOutcome(req: Request, clock: int, d: Digest) returns (x: seq<Event>)
    requires req.strategy == GUARANTEED_DIVERSITY && SelectOutcome(req, clock, Ok(d))
    ensures req.k >= 0 && Heads(Pool(req), x) && Descending(Staleness, x) && |x| == |Sources(Pool(req))|
    ensures d.freshness == CoreScore(req, ToDrop(|x|, req.diversityPercent, req.round), x, ReferenceTime(req, clock))
  {
    CoreOutcome(req, clock, d);
    var a :| CorePick(Pool(req), req.k, req.diversityPercent, req.round, true, a) && IsSummary(req, clock, a, d);
    x :| Heads(Pool(req), x) && Descending(Staleness, x)
      && a == CoreDigest(Pool(req), req.k, ToDrop(|x|, req.diversityPercent, req.round), x);
    HeadsFacts(Pool(req), x);
  }

  /** The order of the heads behind a digest of strategy 5. */
  lemma RandomOutcome(req: Request, clock: int, d: Digest) returns (x: seq<Event>)
    requires req.strategy == GUARANTEED_DIVERSITY_RANDOM && SelectOutcome(req, clock, Ok(d))
    ensures req.k >= 0 && Heads(Pool(req), x) && |x| == |Sources(Pool(req))|
    ensures d.freshness == CoreScore(req, ToDrop(|x|, req.diversityPercent, req.round), x, ReferenceTime(req, clock))
  {
    CoreOutcome(req, clock, d);
    var a :| CorePick(Pool(req), req.k, req.diversityPercent, req.round, false, a) && IsSummary(req, clock, a, d);
    x :| Heads(Pool(req), x) && a == CoreDigest(Pool(req), req.k, ToDrop(|x|, req.diversityPercent, req.round), x);
    HeadsFacts(Pool(req), x);
  }

  /** The FreshnessScore of the digest that a given order of the heads leads to. */
  ghost function CoreScore(req: Request, toDrop: nat, ranked: seq<Event>, ref: int): real
    requires req.k >= 0 && toDrop <= |ranked|
  {
    FreshnessScore(NewestFirst(CoreDigest(Pool(req), req.k, toDrop, ranked)), req.events, ref)
  }

  /** With K = 0 a surviving head still gives the one event that K = 1 gives. */
  lemma ZeroIsOne(pool: seq<Event>, toDrop: nat, ranked: seq<Event>)
    requires toDrop < |ranked|
    ensures CoreDigest(pool, 0, toDrop, ranked) == CoreDigest(pool, 1, toDrop, ranked) == [ranked[toDrop]]
  {
  }

  lemma ScaledOrder(n: real, a: real, b: real)
    requires n >= 0.0 && a <= b
    ensures n * a <= n * b
  {
  }

  lemma FloorOrder(x: real, y: real)
    requires x <= y
    ensures x.Floor <= y.Floor
  {
  }

  /** A higher percentage never drops more, also in rounded arithmetic. */
  lemma ToDropAntitone(n: nat, p: real, q: real, round: Rounding)
    requires p <= q && RoundsTo(round, 0)
    ensures ToDrop(n, q, round) <= ToDrop(n, p, round)
  {
    var x, y := round(Clamp(p) / 100.0), round(Clamp(q) / 100.0);
    assert x <= y;
    ScaledOrder(n as real, round(1.0 - y), round(1.0 - x));
    FloorOrder(Share(n, q, round), Share(n, p, round));
  }

  /** Raising the diversity percentage never raises strategy 4's freshness, for every K from 1 on. */
  lemma FreshnessFallsWithDiversity(req: Request, clock: int, p: real, q: real, dp: Digest, dq: Digest)
    requires req.strategy == GUARANTEED_DIVERSITY && p <= q && RoundsTo(req.round, 0)
    requires SelectOutcome(req.(diversityPercent := p), clock, Ok(dp))
    requires SelectOutcome(req.(diversityPercent := q), clock, Ok(dq))
    requires Consistent(req.events) && req.k >= 1
    ensures dp.freshness >= dq.freshness
  {
    var x := OldestFirstOutcome(req.(diversityPercent := p), clock, dp);
    var y := OldestFirstOutcome(req.(diversityPercent := q), clock, dq);
    ConsistentPool(req);
    ToDropAntitone(|x|, p, q, req.round);
    LowerFloorScores(req, ToDrop(|x|, p, req.round), x, ToDrop(|x|, q, req.round), y, ReferenceTime(req, clock));
  }

  lemma LowerFloorScores(req: Request, c: nat, x: seq<Event>, d: nat, y: seq<Event>, ref: int)
    requires Consistent(Pool(req)) && req.k >= 1 && d <= c <= |x| && |x| == |y|
    requires Heads(Pool(req), x) && Descending(Staleness, x) && Heads(Pool(req), y) && Descending(Staleness, y)
    ensures CoreScore(req, c, x, ref) >= CoreScore(req, d, y, ref)
  {
    var pool, k := Pool(req), req.k;
    CoreSize(pool, k, c, x);
    CoreSize(pool, k, d, y);
    if MaxAge(req.events, ref) > 0 {
      FreshnessMonotone(MaxAge(req.events, ref), ref);
      LowerFloorFresher(pool, k, c, x, d, y, Freshness(MaxAge(req.events, ref), ref));
    }
    TotalsOrderScores(CoreDigest(pool, k, c, x), CoreDigest(pool, k, d, y), req.events, ref);
  }

  lemma EmptyPick(pool: seq<Event>, toDrop: nat, ranked: seq<Event>)
    requires toDrop == |ranked|
    ensures CoreDigest(pool, 0, toDrop, ranked) == []
  {
  }

  lemma SingleScore(e: Event, all: seq<Event>, ref: int)
    requires e in all
    ensures FreshnessScore([e], all, ref) >= 0.0
    ensures FreshnessScore([e], all, ref) == 0.0 <==> MaxAge(all, ref) > 0 && e.AgeAt(ref) == MaxAge(all, ref)
  {
    MaxAgeBounds(all, ref, e);
    if MaxAge(all, ref) > 0 {
      var w := Freshness(MaxAge(all, ref), ref);
      assert [e][..0] == [] && SumOf(w, [e]) == w(e);
      QuotientOfAges(e.AgeAt(ref), MaxAge(all, ref));
    }
  }

  lemma QuotientOfAges(age: nat, max: nat)
    requires age <= max && max > 0
    ensures age as real / max as real <= 1.0
    ensures age as real / max as real == 1.0 <==> age == max
  {
    if age < max { StrictQuotient(age as real, max as real, max as real); }
  }

  lemma StrictQuotient(x: real, y: real, d: real)
    requires x < y && d > 0.0
    ensures x / d < y / d
  {
  }

  /**
   * With K = 0 strategy 4 returns one event if a head survives, and none otherwise. So the lower percentage
   * loses exactly when it alone evicts every head, unless the event it is compared with scores 0 too.
   */
  lemma FreshnessFallsExactly(req: Request, clock: int, p: real, q: real, ranked: seq<Event>, dp: Digest, dq: Digest)
    requires req.strategy == GUARANTEED_DIVERSITY && p <= q && RoundsTo(req.round, 0)
    requires SelectOutcome(req.(diversityPercent := p), clock, Ok(dp))
    requires SelectOutcome(req.(diversityPercent := q), clock, Ok(dq))
    requires Consistent(req.events) && Heads(Pool(req), ranked) && Descending(Staleness, ranked)
    ensures
      var n, ref := |ranked|, ReferenceTime(req, clock);
      var c, d, maxAge := ToDrop(n, p, req.round), ToDrop(n, q, req.round), MaxAge(req.events, ref);
      dp.freshness >= dq.freshness <==>
        req.k >= 1 || c < n || d == n || (maxAge > 0 && ranked[d].AgeAt(ref) == maxAge)
  {
    var x := OldestFirstOutcome(req.(diversityPercent := p), clock, dp);
    var y := OldestFirstOutcome(req.(diversityPercent := q), clock, dq);
    if req.k >= 1 {
      FreshnessFallsWithDiversity(req, clock, p, q, dp, dq);
    } else {
      ToDropAntitone(|x|, p, q, req.round);
      ZeroFromHeads(req, ToDrop(|x|, p, req.round), x, ToDrop(|x|, q, req.round), y, ranked, ReferenceTime(req, clock));
    }
  }

  lemma ZeroFromHeads(req: Request, c: nat, x: seq<Event>, d: nat, y: seq<Event>, ranked: seq<Event>, ref: int)
    requires req.k == 0 && d <= c <= |x| && |x| == |y|
    requires Heads(Pool(req), x) && Descending(Staleness, x) && Heads(Pool(req), y) && Descending(Staleness, y)
    requires Heads(Pool(req), ranked) && Descending(Staleness, ranked)
    ensures |ranked| == |x|
    ensures
      var n, maxAge := |x|, MaxAge(req.events, ref);
      CoreScore(req, c, x, ref) >= CoreScore(req, d, y, ref) <==>
        c < n || d == n || (maxAge > 0 && ranked[d].AgeAt(ref) == maxAge)
  {
    OldestFirstAgree(Pool(req), x, y);
    OldestFirstAgree(Pool(req), ranked, y);
    HeadsInInput(req, y);
    ZeroScores(req, c, x, d, y, ref);
  }

  lemma HeadsInInput(req: Request, heads: seq<Event>)
    requires Heads(Pool(req), heads)
    ensures forall e :: e in heads ==> e in req.events
  {
    HeadsFacts(Pool(req), heads);
    UnsuppressedFacts(req.events, req.suppressionSet);
  }

  lemma ConsistentPool(req: Request)
    requires Consistent(req.events)
    ensures Consistent(Pool(req))
  {
    UnsuppressedFacts(req.events, req.suppressionSet);
  }

  lemma ZeroScores(req: Request, c: nat, x: seq<Event>, d: nat, y: seq<Event>, ref: int)
    requires req.k == 0 && d <= c <= |x| && SameTimes(x, y) && Descending(Staleness, x)
    requires forall e :: e in y ==> e in req.events
    ensures
      var n, maxAge := |x|, MaxAge(req.events, ref);
      CoreScore(req, c, x, ref) >= CoreScore(req, d, y, ref) <==>
        c < n || d == n || (maxAge > 0 && y[d].AgeAt(ref) == maxAge)
  {
    var pool, n := Pool(req), |x|;
    if c < n {
      ZeroIsOne(pool, c, x);
      ZeroIsOne(pool, d, y);
      assert d < c ==> Staleness(x[d]) >= Staleness(x[c]);
      SingleOrder(x[c], y[d], req.events, ref);
    } else {
      EmptyPick(pool, c, x);
      if d < n {
        ZeroIsOne(pool, d, y);
        assert y[d] in y;
        ScoreUnsorted([y[d]], req.events, ref);
        SingleScore(y[d], req.events, ref);
      } else {
        EmptyPick(pool, d, y);
      }
    }
  }

  lemma SingleOrder(e: Event, f: Event, all: seq<Event>, ref: int)
    requires e.timestamp >= f.timestamp
    ensures FreshnessScore(NewestFirst([e]), all, ref) >= FreshnessScore(NewestFirst([f]), all, ref)
  {
    if MaxAge(all, ref) > 0 {
      FreshnessMonotone(MaxAge(all, ref), ref);
      PointwiseSum(Freshness(MaxAge(all, ref), ref), [e], [f]);
    }
    TotalsOrderScores([e], [f], all, ref);
  }

  // ---- Oldest-first eviction against random eviction ----

  /** If the survivors fit, or weigh the same, evicting the oldest heads is no worse than evicting any others. */
  lemma EvictionNoWorse(pool: seq<Event>, k: nat, d: nat, a: seq<Event>, b: seq<Event>, w: Event -> real)
    requires Consistent(pool) && k >= 1 && Monotone(w)
    requires Heads(pool, a) && Descending(Staleness, a) && Heads(pool, b) && d <= |a| && |a| == |b|
    requires k >= |a| - d || w(a[d]) == w(a[|a|-1])
    ensures |CoreDigest(pool, k, d, a)| == |CoreDigest(pool, k, d, b)|
    ensures SumOf(w, CoreDigest(pool, k, d, a)) >= SumOf(w, CoreDigest(pool, k, d, b))
  {
    CoreSize(pool, k, d, a);
    CoreSize(pool, k, d, b);
    if k >= |a| - d {
      CoreIsRival(pool, k, d, b);
      Strategy4MaximisesWeight(pool, k, d, a, CoreDigest(pool, k, d, b), w);
    } else {
      TruncatedCore(pool, k, d, a);
      TruncatedCore(pool, k, d, b);
      HeadsAmong(pool, a, b);
      TiedWindow(k, d, a, b, w);
    }
  }

  lemma TiedWindow(k: nat, d: nat, a: seq<Event>, b: seq<Event>, w: Event -> real)
    requires Descending(Staleness, a) && Monotone(w) && |a| == |b| && forall e :: e in b ==> e in a
    requires k >= 1 && d + k <= |a| && w(a[d]) == w(a[|a|-1])
    ensures SumOf(w, a[d..d+k]) >= SumOf(w, b[d..d+k])
  {
    var x, y := a[d..d+k], b[d..d+k];
    forall i | 0 <= i < |x|
      ensures w(x[i]) >= w(y[i])
    {
      assert i > 0 ==> Staleness(a[d]) >= Staleness(a[d+i]);
      assert b[d+i] in a;
      var j :| 0 <= j < |a| && a[j] == b[d+i];
      assert j < |a| - 1 ==> Staleness(a[j]) >= Staleness(a[|a|-1]);
    }
    PointwiseSum(w, x, y);
  }

  /** Otherwise a shuffle that brings the last head to the front of the survivors weighs more. */
  lemma HeavierShuffle(pool: seq<Event>, k: nat, d: nat, ranked: seq<Event>, w: Event -> real)
    returns (shuffled: seq<Event>)
    requires Heads(pool, ranked) && d <= |ranked| && 1 <= k < |ranked| - d
    requires w(ranked[d]) < w(ranked[|ranked|-1])
    ensures Heads(pool, shuffled) && |shuffled| == |ranked|
    ensures |CoreDigest(pool, k, d, shuffled)| == |CoreDigest(pool, k, d, ranked)| == k
    ensures SumOf(w, CoreDigest(pool, k, d, ranked)) < SumOf(w, CoreDigest(pool, k, d, shuffled))
  {
    shuffled := SwapEnds(ranked, d, k);
    Curation.ReorderedHeads(LatestMap(pool), ranked, shuffled);
    TruncatedCore(pool, k, d, ranked);
    TruncatedCore(pool, k, d, shuffled);
    var aged, newer, others := ranked[d], ranked[|ranked|-1], ranked[d+1..d+k];
    SumOfConcat(w, [aged], others);
    SumOfConcat(w, [newer], others);
    assert [aged][..0] == [] && [newer][..0] == [];
  }

  /** Exchanges position i with the last one: a window of k from i on changes only in its first element. */
  lemma SwapEnds(s: seq<Event>, i: nat, k: nat) returns (r: seq<Event>)
    requires k >= 1 && i + k < |s|
    ensures multiset(r) == multiset(s) && |r| == |s|
    ensures s[i..i+k] == [s[i]] + s[i+1..i+k]
    ensures r[i..i+k] == [s[|s|-1]] + s[i+1..i+k]
  {
    r := s[i := s[|s|-1]][|s|-1 := s[i]];
  }

  /** What strategy 4 and strategy 5 may return for the same request. */
  ghost predicate Outcomes(req: Request, clock: int, d4: Digest, d5: Digest) {
    && SelectOutcome(req.(strategy := GUARANTEED_DIVERSITY), clock, Ok(d4))
    && SelectOutcome(req.(strategy := GUARANTEED_DIVERSITY_RANDOM), clock, Ok(d5))
  }

  ghost predicate NeverOutscored(req: Request, clock: int) {
    forall d4, d5 :: Outcomes(req, clock, d4, d5) ==> d4.freshness >= d5.freshness
  }

  lemma EvictionScores(req: Request, d: nat, a: seq<Event>, b: seq<Event>, ref: int)
    requires req.k >= 0 && Consistent(Pool(req))
    requires Heads(Pool(req), a) && Descending(Staleness, a) && Heads(Pool(req), b) && d <= |a| && |a| == |b|
    requires req.k >= |a| - d || a[d].AgeAt(ref) == a[|a|-1].AgeAt(ref)
    ensures CoreScore(req, d, a, ref) >= CoreScore(req, d, b, ref)
  {
    var pool, k := Pool(req), req.k;
    if k == 0 && d == |a| {
      EmptyPick(pool, d, a);
      EmptyPick(pool, d, b);
    } else {
      if k == 0 {
        ZeroIsOne(pool, d, a);
        ZeroIsOne(pool, d, b);
        k := 1;
      }
      CoreSize(pool, k, d, a);
      CoreSize(pool, k, d, b);
      if MaxAge(req.events, ref) > 0 {
        FreshnessMonotone(MaxAge(req.events, ref), ref);
        EvictionNoWorse(pool, k, d, a, b, Freshness(MaxAge(req.events, ref), ref));
      }
      TotalsOrderScores(CoreDigest(pool, k, d, a), CoreDigest(pool, k, d, b), req.events, ref);
    }
  }

  /** Some shuffle outscores oldest-first eviction when the survivors do not fit and differ in age. */
  lemma ShuffleOutscores(req: Request, d: nat, ranked: seq<Event>, ref: int) returns (shuffled: seq<Event>)
    requires req.k >= 0 && Heads(Pool(req), ranked) && Descending(Staleness, ranked)
    requires d <= |ranked| && req.k < |ranked| - d
    requires ranked[d].AgeAt(ref) != ranked[|ranked|-1].AgeAt(ref)
    ensures Heads(Pool(req), shuffled) && |shuffled| == |ranked|
    ensures CoreScore(req, d, ranked, ref) < CoreScore(req, d, shuffled, ref)
  {
    var pool, all, k := Pool(req), req.events, Max(req.k, 1);
    var aged, newest := ranked[d], ranked[|ranked|-1];
    assert Staleness(aged) >= Staleness(newest);
    HeadsInInput(req, ranked);
    assert aged in ranked;
    MaxAgeBounds(all, ref, aged);
    var maxAge := MaxAge(all, ref);
    var w := Freshness(maxAge, ref);
    StrictQuotient(newest.AgeAt(ref) as real, aged.AgeAt(ref) as real, maxAge as real);
    shuffled := HeavierShuffle(pool, k, d, ranked, w);
    if req.k == 0 {
      ZeroIsOne(pool, d, ranked);
      ZeroIsOne(pool, d, shuffled);
    }
    var x, y := CoreDigest(pool, k, d, ranked), CoreDigest(pool, k, d, shuffled);
    ScoreUnsorted(x, all, ref);
    ScoreUnsorted(y, all, ref);
    StrictQuotient(SumOf(w, x), SumOf(w, y), k as real);
  }

  /** K covers the survivors of the eviction, or the oldest survivor and the newest head are equally old. */
  ghost predicate FitsOrTies(req: Request, ranked: seq<Event>, ref: int)
    requires req.k >= 0
  {
    var n := |ranked|;
    var d := ToDrop(n, req.diversityPercent, req.round);
    req.k >= n - d || ranked[d].AgeAt(ref) == ranked[n-1].AgeAt(ref)
  }

  /** Exactly when strategy 4 scores at least as high as strategy 5 for every shuffle. */
  lemma Strategy4BeatsRandomEviction(req: Request, clock: int, ranked: seq<Event>)
    requires req.k >= 0 && Consistent(req.events)
    requires Heads(Pool(req), ranked) && Descending(Staleness, ranked)
    ensures NeverOutscored(req, clock) <==> FitsOrTies(req, ranked, ReferenceTime(req, clock))
  {
    if FitsOrTies(req, ranked, ReferenceTime(req, clock)) {
      AllOutcomesCompared(req, clock, ranked);
    } else {
      var d4, d5 := OutscoredOutcome(req, clock, ranked);
    }
  }

  lemma AllOutcomesCompared(req: Request, clock: int, ranked: seq<Event>)
    requires req.k >= 0 && Consistent(req.events)
    requires Heads(Pool(req), ranked) && Descending(Staleness, ranked)
    requires FitsOrTies(req, ranked, ReferenceTime(req, clock))
    ensures NeverOutscored(req, clock)
  {
    forall d4, d5 | Outcomes(req, clock, d4, d5)
      ensures d4.freshness >= d5.freshness
    {
      OutcomesCompared(req, clock, ranked, d4, d5);
    }
  }

  lemma OutscoredOutcome(req: Request, clock: int, ranked: seq<Event>) returns (d4: Digest, d5: Digest)
    requires req.k >= 0 && Heads(Pool(req), ranked) && Descending(Staleness, ranked)
    requires !FitsOrTies(req, ranked, ReferenceTime(req, clock))
    ensures Outcomes(req, clock, d4, d5) && d4.freshness < d5.freshness
  {
    var d := ToDrop(|ranked|, req.diversityPercent, req.round);
    var shuffled := ShuffleOutscores(req, d, ranked, ReferenceTime(req, clock));
    d4 := CoreSummary(req, clock, ranked, GUARANTEED_DIVERSITY);
    d5 := CoreSummary(req, clock, shuffled, GUARANTEED_DIVERSITY_RANDOM);
  }

  lemma CoreSummary(req: Request, clock: int, ranked: seq<Event>, strategy: int) returns (d: Digest)
    requires strategy == GUARANTEED_DIVERSITY || strategy == GUARANTEED_DIVERSITY_RANDOM
    requires req.k >= 0 && Heads(Pool(req), ranked)
    requires strategy == GUARANTEED_DIVERSITY ==> Descending(Staleness, ranked)
    ensures SelectOutcome(req.(strategy := strategy), clock, Ok(d))
    ensures d.freshness
         == CoreScore(req, ToDrop(|ranked|, req.diversityPercent, req.round), ranked, ReferenceTime(req, clock))
  {
    var asked := req.(strategy := strategy);
    var picked := CoreDigest(Pool(req), req.k, ToDrop(|ranked|, req.diversityPercent, req.round), ranked);
    assert Pool(asked) == Pool(req);
    assert CorePick(Pool(req), req.k, req.diversityPercent, req.round, strategy == GUARANTEED_DIVERSITY, picked);
    assert Picks(asked, Pool(asked), picked);
    d := Summary(asked, clock, picked);
  }

  lemma HeadsSameLength(pool: seq<Event>, a: seq<Event>, b: seq<Event>)
    requires Heads(pool, a) && Heads(pool, b)
    ensures |a| == |b|
  {
    HeadsAmong(pool, a, b);
  }

  lemma SameAgeAt(pool: seq<Event>, a: seq<Event>, b: seq<Event>, i: nat, ref: int)
    requires Heads(pool, a) && Descending(Staleness, a)
    requires Heads(pool, b) && Descending(Staleness, b)
    requires i < |a| && i < |b|
    ensures a[i].AgeAt(ref) == b[i].AgeAt(ref)
  {
    OldestFirstAgree(pool, a, b);
  }

  /** The condition does not depend on how the heads are ordered within one timestamp. */
  lemma FitsOrTiesCarries(req: Request, a: seq<Event>, b: seq<Event>, ref: int)
    requires Heads(Pool(req), a) && Descending(Staleness, a)
    requires Heads(Pool(req), b) && Descending(Staleness, b)
    requires req.k >= 0 && FitsOrTies(req, a, ref)
    ensures FitsOrTies(req, b, ref)
  {
    HeadsSameLength(Pool(req), a, b);
    var n := |a|;
    var d := ToDrop(n, req.diversityPercent, req.round);
    if req.k < n - d {
      SameAgeAt(Pool(req), a, b, d, ref);
      SameAgeAt(Pool(req), a, b, n - 1, ref);
    }
  }

  /** No order of the heads, evicted as it comes, scores above x. */
  ghost predicate ScoresHighest(req: Request, x: seq<Event>, ref: int)
    requires req.k >= 0
  {
    forall y :: Heads(Pool(req), y) ==> NotAbove(req, x, y, ref)
  }

  ghost predicate NotAbove(req: Request, x: seq<Event>, y: seq<Event>, ref: int)
    requires req.k >= 0
  {
    var p, round := req.diversityPercent, req.round;
    CoreScore(req, ToDrop(|x|, p, round), x, ref) >= CoreScore(req, ToDrop(|y|, p, round), y, ref)
  }

  lemma OldestFirstScoresHighest(req: Request, x: seq<Event>, ref: int)
    requires req.k >= 0 && Consistent(Pool(req))
    requires Heads(Pool(req), x) && Descending(Staleness, x) && FitsOrTies(req, x, ref)
    ensures ScoresHighest(req, x, ref)
  {
    forall y | Heads(Pool(req), y)
      ensures NotAbove(req, x, y, ref)
    {
      HeadsSameLength(Pool(req), x, y);
      EvictionScores(req, ToDrop(|x|, req.diversityPercent, req.round), x, y, ref);
    }
  }

  lemma OldestFirstHighest(req: Request, clock: int, ranked: seq<Event>, d4: Digest) returns (x: seq<Event>)
    requires Consistent(req.events) && SelectOutcome(req.(strategy := GUARANTEED_DIVERSITY), clock, Ok(d4))
    requires Heads(Pool(req), ranked) && Descending(Staleness, ranked)
    requires req.k >= 0 && FitsOrTies(req, ranked, ReferenceTime(req, clock))
    ensures ScoresHighest(req, x, ReferenceTime(req, clock))
    ensures d4.freshness
         == CoreScore(req, ToDrop(|x|, req.diversityPercent, req.round), x, ReferenceTime(req, clock))
  {
    x := OldestFirstOutcome(req.(strategy := GUARANTEED_DIVERSITY), clock, d4);
    ConsistentPool(req);
    FitsOrTiesCarries(req, ranked, x, ReferenceTime(req, clock));
    OldestFirstScoresHighest(req, x, ReferenceTime(req, clock));
  }

  lemma OutcomesCompared(req: Request, clock: int, ranked: seq<Event>, d4: Digest, d5: Digest)
    requires req.k >= 0 && Consistent(req.events) && Outcomes(req, clock, d4, d5)
    requires Heads(Pool(req), ranked) && Descending(Staleness, ranked)
    requires FitsOrTies(req, ranked, ReferenceTime(req, clock))
    ensures d4.freshness >= d5.freshness
  {
    var x := OldestFirstHighest(req, clock, ranked, d4);
    var y := RandomOutcome(req.(strategy := GUARANTEED_DIVERSITY_RANDOM), clock, d5);
    assert NotAbove(req, x, y, ReferenceTime(req, clock));
  }

  // ---- When strategy 4 misses its promise ----

  lemma HeadsAreRivals(pool: seq<Event>, ranked: seq<Event>, rival: seq<Event>)
    requires Heads(pool, ranked) && UniqueSources(rival)
    requires forall e :: e in rival ==> e in ranked
    ensures Rival(pool, |rival|, |rival|, rival)
  {
    HeadsFacts(pool, ranked);
    UniqueSourcesCardinality(rival);
  }

  lemma TruncatedCore(pool: seq<Event>, k: nat, toDrop: nat, ranked: seq<Event>)
    requires toDrop <= |ranked| && 1 <= k < |ranked| - toDrop
    ensures CoreDigest(pool, k, toDrop, ranked) == ranked[toDrop..toDrop+k]
  {
  }

  lemma TruncatedRival(pool: seq<Event>, k: nat, toDrop: nat, ranked: seq<Event>)
    requires Heads(pool, ranked) && toDrop <= |ranked| && 1 <= k < |ranked| - toDrop
    ensures Rival(pool, k, k, CoreDigest(pool, k, toDrop, ranked))
  {
    TruncatedCore(pool, k, toDrop, ranked);
    HeadsAreRivals(pool, ranked, ranked[toDrop..toDrop+k]);
  }

  /** Fewer slots than survivors: swapping the oldest survivor for the newest head gives a fresher digest. */
  lemma TooSmallIsStale(pool: seq<Event>, k: nat, toDrop: nat, ranked: seq<Event>)
    requires Heads(pool, ranked)
    requires toDrop <= |ranked| && 1 <= k < |ranked| - toDrop
    requires ranked[toDrop].timestamp < ranked[|ranked|-1].timestamp
    ensures exists rival :: Rival(pool, k, k, rival) && !AsFresh(CoreDigest(pool, k, toDrop, ranked), rival)
  {
    var shuffled := FresherShuffle(pool, k, toDrop, ranked);
    TruncatedRival(pool, k, toDrop, shuffled);
  }

  /** A shuffle that brings the last head to the front of the survivors beats eviction of the oldest. */
  lemma FresherShuffle(pool: seq<Event>, k: nat, toDrop: nat, ranked: seq<Event>) returns (shuffled: seq<Event>)
    requires Heads(pool, ranked)
    requires toDrop <= |ranked| && 1 <= k < |ranked| - toDrop
    requires ranked[toDrop].timestamp < ranked[|ranked|-1].timestamp
    ensures Heads(pool, shuffled) && |shuffled| == |ranked|
    ensures !AsFresh(CoreDigest(pool, k, toDrop, ranked), CoreDigest(pool, k, toDrop, shuffled))
  {
    var w := (e: Event) => e.timestamp as real;
    assert Monotone(w);
    shuffled := HeavierShuffle(pool, k, toDrop, ranked, w);
    if AsFresh(CoreDigest(pool, k, toDrop, ranked), CoreDigest(pool, k, toDrop, shuffled)) {
      AsFreshTotals(w, CoreDigest(pool, k, toDrop, ranked), CoreDigest(pool, k, toDrop, shuffled));
    }
  }

  /** All survivors equally new: any k of them are as fresh as anything in the pool. */
  lemma TiedSurvivorsAreFresh(pool: seq<Event>, k: nat, toDrop: nat, ranked: seq<Event>, rival: seq<Event>)
    requires Heads(pool, ranked) && Descending(Staleness, ranked)
    requires toDrop <= |ranked| && 1 <= k < |ranked| - toDrop
    requires ranked[toDrop].timestamp == ranked[|ranked|-1].timestamp
    requires Rival(pool, k, k, rival)
    ensures AsFresh(CoreDigest(pool, k, toDrop, ranked), rival)
  {
    var newest := ranked[|ranked|-1].timestamp;
    TruncatedCore(pool, k, toDrop, ranked);
    SurvivorsAtLeast(ranked, toDrop, k);
    forall r | r in rival
      ensures r.timestamp <= newest
    {
      var h := HeadOf(pool, ranked, r);
      assert h < |ranked| - 1 ==> Staleness(ranked[h]) >= Staleness(ranked[|ranked|-1]);
    }
    NewerThroughout(ranked[toDrop..toDrop+k], rival, newest);
  }

  lemma SurvivorsAtLeast(ranked: seq<Event>, i: nat, k: nat)
    requires Descending(Staleness, ranked) && k >= 1 && i + k <= |ranked|
    ensures forall d :: d in ranked[i..i+k] ==> d.timestamp >= ranked[i].timestamp
  {
    forall d | d in ranked[i..i+k]
      ensures d.timestamp >= ranked[i].timestamp
    {
      var j :| 0 <= j < k && ranked[i..i+k][j] == d;
      assert j > 0 ==> Staleness(ranked[i]) >= Staleness(ranked[i+j]);
    }
  }

  lemma NewerThroughout(a: seq<Event>, b: seq<Event>, t: int)
    requires |a| == |b|
    requires forall e :: e in a ==> e.timestamp >= t
    requires forall e :: e in b ==> e.timestamp <= t
    ensures AsFresh(a, b)
  {
    NewestFirstFacts(a);
    NewestFirstFacts(b);
    assert forall i :: 0 <= i < |a| ==> NewestFirst(a)[i] in a && NewestFirst(b)[i] in b;
  }

  /**
   * Exactly when strategy 4 is the freshest digest meeting the floor that its size allows: the size
   * leaves room for every survivor, or all survivors are equally new.
   */
  lemma Strategy4OptimalExactly(pool: seq<Event>, k: nat, toDrop: nat, ranked: seq<Event>)
    requires Consistent(pool) && Heads(pool, ranked) && Descending(Staleness, ranked)
    requires toDrop <= |ranked| && k >= 1
    ensures
      var m, digest := |ranked| - toDrop, CoreDigest(pool, k, toDrop, ranked);
      (forall rival :: Rival(pool, |digest|, Min(k, m), rival) ==> AsFresh(digest, rival))
      <==> (k >= m || ranked[toDrop].timestamp == ranked[|ranked|-1].timestamp)
  {
    var m, digest := |ranked| - toDrop, CoreDigest(pool, k, toDrop, ranked);
    if k >= m {
      forall rival | Rival(pool, |digest|, m, rival)
        ensures AsFresh(digest, rival)
      {
        Strategy4Optimal(pool, k, toDrop, ranked, rival);
      }
    } else {
      assert digest == ranked[toDrop..][..k];
      assert Staleness(ranked[toDrop]) >= Staleness(ranked[|ranked|-1]);
      if ranked[toDrop].timestamp == ranked[|ranked|-1].timestamp {
        forall rival | Rival(pool, k, k, rival)
          ensures AsFresh(digest, rival)
        {
          TiedSurvivorsAreFresh(pool, k, toDrop, ranked, rival);
        }
      } else {
        TooSmallIsStale(pool, k, toDrop, ranked);
      }
    }
  }

  /**
   * Exactly when dropping the oldest heads is as fresh as dropping any others: strategy 4 against
   * strategy 5, over every shuffle.
   */
  lemma BeatsEveryShuffleExactly(pool: seq<Event>, k: nat, toDrop: nat, ranked: seq<Event>)
    requires Consistent(pool) && Heads(pool, ranked) && Descending(Staleness, ranked)
    requires toDrop <= |ranked| && k >= 1
    ensures
      var digest := CoreDigest(pool, k, toDrop, ranked);
      (forall shuffled :: Heads(pool, shuffled) && |shuffled| == |ranked| ==>
         AsFresh(digest, CoreDigest(pool, k, toDrop, shuffled)))
      <==> (k >= |ranked| - toDrop || ranked[toDrop].timestamp == ranked[|ranked|-1].timestamp)
  {
    var n := |ranked|;
    if k >= n - toDrop || ranked[toDrop].timestamp == ranked[n-1].timestamp {
      forall shuffled | Heads(pool, shuffled) && |shuffled| == n
        ensures AsFresh(CoreDigest(pool, k, toDrop, ranked), CoreDigest(pool, k, toDrop, shuffled))
      {
        ShuffleNoFresher(pool, k, toDrop, ranked, shuffled);
      }
    } else {
      assert Staleness(ranked[toDrop]) >= Staleness(ranked[n-1]);
      var better := FresherShuffle(pool, k, toDrop, ranked);
    }
  }

  lemma ShuffleNoFresher(pool: seq<Event>, k: nat, toDrop: nat, ranked: seq<Event>, shuffled: seq<Event>)
    requires Consistent(pool) && Heads(pool, ranked) && Descending(Staleness, ranked)
    requires Heads(pool, shuffled) && |shuffled| == |ranked| && toDrop <= |ranked| && k >= 1
    requires k >= |ranked| - toDrop || ranked[toDrop].timestamp == ranked[|ranked|-1].timestamp
    ensures AsFresh(CoreDigest(pool, k, toDrop, ranked), CoreDigest(pool, k, toDrop, shuffled))
  {
    if k >= |ranked| - toDrop {
      CoreShape(pool, k, toDrop, ranked);
      CoreIsRival(pool, k, toDrop, shuffled);
      Strategy4Optimal(pool, k, toDrop, ranked, CoreDigest(pool, k, toDrop, shuffled));
    } else {
      TruncatedRival(pool, k, toDrop, shuffled);
      TiedSurvivorsAreFresh(pool, k, toDrop, ranked, CoreDigest(pool, k, toDrop, shuffled));
    }
  }

  /** The digest has the requested size unless no event was requested and a head survives the eviction. */
  lemma CoreSizeExactly(pool: seq<Event>, k: nat, toDrop: nat, ranked: seq<Event>)
    requires IDsDetermineSource(pool) && Heads(pool, ranked) && toDrop <= |ranked|
    ensures |CoreDigest(pool, k, toDrop, ranked)| == Min(k, |IDs(pool)|) <==> k >= 1 || toDrop == |ranked|
  {
    var kept := Survivors(ranked, toDrop, k);
    if k >= 1 || toDrop == |ranked| {
      assert kept == ranked[toDrop..toDrop + |kept|];
      HeadsUnique(pool, ranked, kept);
      FillSize(pool, kept, k);
    } else {
      assert Fill(kept, NewestFirst(pool), k) == kept;
    }
  }
}
