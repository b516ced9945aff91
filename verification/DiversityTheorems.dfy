/** Source coverage of the strategies, and the two ends of the freshness-diversity trade-off. */
module DiversityTheorems {
  import opened Wrappers
  import opened Lists
  import opened Sorting
  import opened Canonical
  import opened Digests
  import opened DigestFacts
  import opened Optimality
  import opened StrategyTheorems
  import Curation

  // ---- The diversity floor of strategies 4 to 6 ----

  lemma PrefixSources(kept: seq<Event>, digest: seq<Event>)
    requires kept <= digest && UniqueSources(kept)
    ensures |Sources(digest)| >= |kept|
  {
    UniqueSourcesCardinality(kept);
    assert forall e :: e in kept ==> e in digest;
    SubsetCardinality(Sources(kept), Sources(digest));
  }

  /** Whatever was evicted, the core covers as many sources as it has room and survivors for. */
  lemma CoreCoversFloor(pool: seq<Event>, k: nat, toDrop: nat, ranked: seq<Event>)
    requires Heads(pool, ranked) && toDrop <= |ranked|
    ensures |Sources(CoreDigest(pool, k, toDrop, ranked))| >= Min(k, |ranked| - toDrop)
  {
    var kept := Survivors(ranked, toDrop, k);
    assert kept == ranked[toDrop..toDrop + |kept|];
    FillExtends(kept, NewestFirst(pool), k);
    PrefixSources(kept, CoreDigest(pool, k, toDrop, ranked));
  }

  lemma ProductNonNegative(a: real, b: real)
    requires a >= 0.0 && b >= 0.0
    ensures a * b >= 0.0
  {
  }

  /** Arithmetic without rounding. */
  const EXACT: Rounding := (x: real) => x

  /** The survivors are at least the requested percentage of n sources. */
  ghost predicate MeetsPercentage(n: nat, percent: real, round: Rounding) {
    100.0 * (n - ToDrop(n, percent, round)) as real >= Clamp(percent) * n as real
  }

  /** Exactly when they are: rounding must not evict more heads than exact arithmetic would. */
  lemma MeetsPercentageExactly(n: nat, percent: real, round: Rounding)
    ensures MeetsPercentage(n, percent, round) <==> ToDrop(n, percent, round) <= ToDrop(n, percent, EXACT)
  {
    var share := n as real - Clamp(percent) * n as real / 100.0;
    assert Share(n, percent, EXACT) == share;
    ProductNonNegative(n as real, 1.0 - Clamp(percent) / 100.0);
    ProductNonNegative(n as real, Clamp(percent));
    assert ToDrop(n, percent, EXACT) == share.Floor;
  }

  /** A percentage outside 0 to 100 counts as the nearer end. */
  lemma ClampExactly(percent: real)
    ensures 0.0 <= Clamp(percent) <= 100.0
    ensures 0.0 <= percent <= 100.0 ==> Clamp(percent) == percent
    ensures percent < 0.0 ==> Clamp(percent) == 0.0
    ensures percent > 100.0 ==> Clamp(percent) == 100.0
  {
  }

  /** In exact arithmetic as many heads are evicted as the percentage allows: one more would miss it. */
  lemma EvictsAllItMay(n: nat, percent: real, d: nat)
    requires d <= n
    ensures d <= ToDrop(n, percent, EXACT) <==> 100.0 * (n - d) as real >= Clamp(percent) * n as real
  {
    var share := n as real - Clamp(percent) * n as real / 100.0;
    assert Share(n, percent, EXACT) == share;
    ProductNonNegative(n as real, 1.0 - Clamp(percent) / 100.0);
    ProductNonNegative(n as real, Clamp(percent));
    assert ToDrop(n, percent, EXACT) == share.Floor;
  }

  /**
   * Rounded arithmetic can keep one source more than that: 80 / 100 rounds up to the nearest binary64 number,
   * so of 5 sources at 80% none is given up, where exact arithmetic gives up one.
   */
  lemma RoundingKeepsOneMore()
    ensures ToDrop(5, 80.0, EXACT) == 1
    ensures exists round :: RoundsTo(round, 0x20_0000_0000_0000) && ToDrop(5, 80.0, round) == 0
  {
    var up := 0.8000000000000000444089209850062616169452667236328125;
    var round := (x: real) => if 0.8 <= x < up then up else x;
    assert forall i: nat :: Keeps(round, i);
    assert Share(5, 80.0, round) < 1.0;
    assert Share(5, 80.0, EXACT) == 1.0;
    assert RoundsTo(round, 0x20_0000_0000_0000);
  }

  /** The binary64 number that 33.333333333333336 stands for. */
  const THIRD := 33.33333333333333570180911920033395290374755859375

  /**
   * And it can keep one source fewer, just under the percentage: of 3 sources at 33.333333333333336% the share
   * to give up falls between the last binary64 number below 2 and 2, and rounds up.
   */
  lemma RoundingKeepsOneFewer()
    ensures ToDrop(3, THIRD, EXACT) == 1
    ensures exists round ::
      RoundsTo(round, 0x20_0000_0000_0000) && ToDrop(3, THIRD, round) == 2 && !MeetsPercentage(3, THIRD, round)
  {
    var below := 1.9999999999999997779553950749686919152736663818359375;
    var round := (x: real) => if below < x < 2.0 then 2.0 else x;
    assert forall i: nat :: Keeps(round, i);
    assert 1.0 <= Share(3, THIRD, EXACT) < 2.0;
    assert Share(3, THIRD, round) == 2.0;
    assert RoundsTo(round, 0x20_0000_0000_0000);
    MeetsPercentageExactly(3, THIRD, round);
  }

  /** Swapping in a new source for one event cannot lower the number of sources covered. */
  lemma SwapKeepsCoverage(base: seq<Event>, i: nat, c: Event)
    requires i < |base| && c.sourceID !in Sources(base)
    ensures |Sources(base[i := c])| >= |Sources(base)|
  {
    var r := base[i := c];
    forall e | e in base && e.sourceID != base[i].sourceID
      ensures e.sourceID in Sources(r)
    {
      var j :| 0 <= j < |base| && base[j] == e;
      assert r[j] == e;
    }
    assert r[i] == c;
    var others := Sources(base) - {base[i].sourceID};
    assert others + {c.sourceID} <= Sources(r);
    SubsetCardinality(others + {c.sourceID}, Sources(r));
  }

  /** Strategy 6 never covers fewer sources than strategy 4, and shows a preferred source whenever one survived. */
  lemma InjectionCoverage(pool: seq<Event>, base: seq<Event>, preferred: seq<string>)
    requires forall e :: e in base ==> e in pool
    ensures |Sources(InjectPreferred(base, pool, preferred))| >= |Sources(base)|
    ensures |base| > 0 && PreferredPresent(pool, preferred) ==>
      PreferredPresent(InjectPreferred(base, pool, preferred), preferred)
  {
    var r := InjectPreferred(base, pool, preferred);
    NewestOfFacts(pool, preferred);
    if |base| > 0 && |preferred| > 0 && !(exists e :: e in base && e.sourceID in preferred) {
      var best := NewestOf(pool, preferred);
      if best.Some? {
        assert r == base[OldestIndex(base) := best.value];
        assert r[OldestIndex(base)] == best.value;
        SwapKeepsCoverage(base, OldestIndex(base), best.value);
      }
    }
  }

  lemma {:induction false} SumOfUpdate(w: Event -> real, s: seq<Event>, i: nat, c: Event)
    requires i < |s|
    ensures SumOf(w, s[i := c]) == SumOf(w, s) - w(s[i]) + w(c)
  {
    var n := |s| - 1;
    if i == n {
      assert s[i := c][..n] == s[..n];
    } else {
      assert s[i := c][..n] == s[..n][i := c];
      SumOfUpdate(w, s[..n], i, c);
    }
  }

  /** Strategy 6's replacement costs the least: no other way to bring in a preferred event is fresher. */
  lemma InjectionIsCheapest(pool: seq<Event>, base: seq<Event>, preferred: seq<string>, i: nat, c: Event,
                            w: Event -> real)
    requires i < |base| && c in pool && c.sourceID in preferred && !PreferredPresent(base, preferred)
    requires Monotone(w)
    ensures SumOf(w, InjectPreferred(base, pool, preferred)) >= SumOf(w, base[i := c])
  {
    NewestOfFacts(pool, preferred);
    var best := NewestOf(pool, preferred).value;
    assert InjectPreferred(base, pool, preferred) == base[OldestIndex(base) := best];
    SumOfUpdate(w, base, OldestIndex(base), best);
    SumOfUpdate(w, base, i, c);
  }

  lemma ElemsOfUpdate(s: seq<Event>, i: nat, c: Event)
    requires Distinct(s) && i < |s| && c !in s
    ensures Elems(s[i := c]) == Elems(s) - {s[i]} + {c}
  {
    var r := s[i := c];
    forall e | e in Elems(s) - {s[i]}
      ensures e in r
    {
      var j :| 0 <= j < |s| && s[j] == e;
      assert r[j] == e;
    }
    assert r[i] == c;
    forall e | e in r
      ensures e in Elems(s) - {s[i]} + {c}
    {
      var j :| 0 <= j < |r| && r[j] == e;
      assert j != i ==> e == s[j] && s[j] != s[i];
    }
  }

  /** Replacing the oldest event keeps every cutoff's count above that of a rival with an event no newer than c. */
  lemma InjectedCutoff(base: set<Event>, oldest: Event, c: Event, rival: set<Event>, r: Event, t: int)
    requires oldest in base && c !in base && forall e :: e in base ==> oldest.timestamp <= e.timestamp
    requires |rival| == |base| && r in rival && r.timestamp <= c.timestamp
    requires |AtLeast(rival, t)| <= |AtLeast(base, t)|
    ensures |AtLeast(rival, t)| <= |AtLeast(base - {oldest} + {c}, t)|
  {
    var after := base - {oldest} + {c};
    if c.timestamp >= t {
      assert AtLeast(after, t) == AtLeast(base, t) - {oldest} + {c};
    } else if oldest.timestamp < t {
      assert AtLeast(after, t) == AtLeast(base, t);
    } else {
      assert AtLeast(after, t) == base - {oldest};
      SubsetCardinality(AtLeast(rival, t), rival - {r});
    }
  }

  lemma InjectedAsFresh(pool: seq<Event>, base: seq<Event>, preferred: seq<string>, rival: seq<Event>)
    requires Distinct(base) && Distinct(rival) && |rival| == |base|
    requires !PreferredPresent(base, preferred) && PreferredPresent(rival, preferred)
    requires forall e :: e in rival ==> e in pool
    requires forall t :: |AtLeast(Elems(rival), t)| <= |AtLeast(Elems(base), t)|
    ensures AsFresh(InjectPreferred(base, pool, preferred), rival)
  {
    var r :| r in rival && r.sourceID in preferred;
    NewestOfFacts(pool, preferred);
    var c, i := NewestOf(pool, preferred).value, OldestIndex(base);
    DistinctCardinality(base);
    DistinctCardinality(rival);
    ElemsOfUpdate(base, i, c);
    forall t
      ensures |AtLeast(Elems(rival), t)| <= |AtLeast(Elems(base[i := c]), t)|
    {
      InjectedCutoff(Elems(base), base[i], c, Elems(rival), r, t);
    }
    CutoffsToPositions(base[i := c], rival);
  }

  /**
   * Strategy 6 is the freshest digest of its size that meets the diversity floor and shows a preferred source,
   * when the survivors fit.
   */
  lemma Strategy6Optimal(pool: seq<Event>, k: nat, toDrop: nat, ranked: seq<Event>, preferred: seq<string>,
                         rival: seq<Event>)
    requires Consistent(pool) && Heads(pool, ranked) && Descending(Staleness, ranked)
    requires toDrop <= |ranked| && k >= |ranked| - toDrop
    requires Rival(pool, |CoreDigest(pool, k, toDrop, ranked)|, |ranked| - toDrop, rival)
    requires PreferredPresent(rival, preferred)
    ensures AsFresh(InjectPreferred(CoreDigest(pool, k, toDrop, ranked), pool, preferred), rival)
  {
    var base := CoreDigest(pool, k, toDrop, ranked);
    if PreferredPresent(base, preferred) {
      Strategy4Optimal(pool, k, toDrop, ranked, rival);
    } else {
      CoreCutoffs(pool, k, toDrop, ranked, rival);
      InjectedAsFresh(pool, base, preferred, rival);
    }
  }

  lemma CoreCutoffs(pool: seq<Event>, k: nat, toDrop: nat, ranked: seq<Event>, rival: seq<Event>)
    requires Consistent(pool) && Heads(pool, ranked) && Descending(Staleness, ranked)
    requires toDrop <= |ranked| && k >= |ranked| - toDrop
    requires Rival(pool, |CoreDigest(pool, k, toDrop, ranked)|, |ranked| - toDrop, rival)
    ensures Distinct(CoreDigest(pool, k, toDrop, ranked))
    ensures forall t :: |AtLeast(Elems(rival), t)| <= |AtLeast(Elems(CoreDigest(pool, k, toDrop, ranked)), t)|
  {
    var kept, digest := ranked[toDrop..], CoreDigest(pool, k, toDrop, ranked);
    CoreShape(pool, k, toDrop, ranked);
    CoreIsGreedy(pool, k, toDrop, ranked);
    RivalAsSet(pool, kept, digest, rival);
    EveryCutoff(pool, Elems(kept), Elems(digest), Elems(rival));
  }

  /** Its digest is itself one of those, whenever the pool has a preferred source and the digest is not empty. */
  lemma Strategy6IsRival(pool: seq<Event>, k: nat, toDrop: nat, ranked: seq<Event>, preferred: seq<string>)
    requires Consistent(pool) && Heads(pool, ranked)
    requires toDrop <= |ranked| && k >= |ranked| - toDrop
    ensures
      var base := CoreDigest(pool, k, toDrop, ranked);
      var digest := InjectPreferred(base, pool, preferred);
      && Rival(pool, |base|, |ranked| - toDrop, digest)
      && (|base| > 0 && PreferredPresent(pool, preferred) ==> PreferredPresent(digest, preferred))
  {
    var base := CoreDigest(pool, k, toDrop, ranked);
    CoreShape(pool, k, toDrop, ranked);
    CoreIsRival(pool, k, toDrop, ranked);
    InjectedShape(pool, base, preferred);
    InjectionCoverage(pool, base, preferred);
  }

  lemma CorePickCoverage(pool: seq<Event>, k: nat, percent: real, round: Rounding, oldest: bool, picked: seq<Event>)
    requires CorePick(pool, k, percent, round, oldest, picked)
    ensures |Sources(picked)| >= Min(k, |Sources(pool)| - ToDrop(|Sources(pool)|, percent, round))
    ensures k >= 1 && |pool| > 0 ==> |picked| > 0
  {
    var ranked :| Heads(pool, ranked) && picked == CoreDigest(pool, k, ToDrop(|ranked|, percent, round), ranked);
    HeadsFacts(pool, ranked);
    CoreCoversFloor(pool, k, ToDrop(|ranked|, percent, round), ranked);
    if k >= 1 && |pool| > 0 {
      CoreNonEmpty(pool, k, ToDrop(|ranked|, percent, round), ranked);
    }
  }

  lemma CoreNonEmpty(pool: seq<Event>, k: nat, toDrop: nat, ranked: seq<Event>)
    requires toDrop <= |ranked| && k >= 1 && |pool| > 0
    ensures |CoreDigest(pool, k, toDrop, ranked)| > 0
  {
    var kept, sorted := Survivors(ranked, toDrop, k), NewestFirst(pool);
    FillExtends(kept, sorted, k);
    NewestFirstFacts(pool);
    FillGreedy(kept, sorted, k, sorted[0]);
  }

  lemma PicksCoverage(req: Request, picked: seq<Event>)
    requires req.k >= 0 && GUARANTEED_DIVERSITY <= req.strategy <= PREFERRED_SOURCES
    requires Picks(req, Pool(req), picked)
    ensures |Sources(picked)| >= Min(req.k, Floor(req))
    ensures req.strategy == PREFERRED_SOURCES && req.k >= 1 && PreferredPresent(Pool(req), req.preferredSources) ==>
      PreferredPresent(picked, req.preferredSources)
  {
    var pool, k, percent, round := Pool(req), req.k, req.diversityPercent, req.round;
    if req.strategy == PREFERRED_SOURCES {
      var base :| CorePick(pool, k, percent, round, true, base)
        && picked == InjectPreferred(base, pool, req.preferredSources);
      CorePickCoverage(pool, k, percent, round, true, base);
      CorePickShape(pool, k, percent, round, true, base);
      InjectionCoverage(pool, base, req.preferredSources);
    } else {
      CorePickCoverage(pool, k, percent, round, req.strategy == GUARANTEED_DIVERSITY, picked);
    }
  }

  ghost predicate PreferredPresent(events: seq<Event>, preferred: seq<string>) {
    exists e :: e in events && e.sourceID in preferred
  }

  /** The floor that strategies 4, 5 and 6 promise, for every map order and every shuffle. */
  lemma DiversityFloor(req: Request, clock: int, d: Digest)
    requires GUARANTEED_DIVERSITY <= req.strategy <= PREFERRED_SOURCES
    requires SelectOutcome(req, clock, Ok(d))
    ensures |Sources(d.selected)| >= Min(req.k, Floor(req))
    ensures req.k >= Floor(req) && EvictsNoMore(req) ==>
      100.0 * |Sources(d.selected)| as real >= Clamp(req.diversityPercent) * |Sources(Pool(req))| as real
    ensures req.strategy == PREFERRED_SOURCES && req.k >= 1 && PreferredPresent(Pool(req), req.preferredSources) ==>
      PreferredPresent(d.selected, req.preferredSources)
  {
    SelectedFrom(req, clock, d);
    var picked :| Picks(req, Pool(req), picked) && IsSummary(req, clock, picked, d);
    PicksCoverage(req, picked);
    NewestFirstFacts(picked);
    if req.k >= Floor(req) && EvictsNoMore(req) {
      FloorInPercent(req, |Sources(picked)|);
    }
  }

  /** Rounding evicts no more heads than exact arithmetic would. */
  ghost predicate EvictsNoMore(req: Request) {
    var n, percent := |Sources(Pool(req))|, req.diversityPercent;
    ToDrop(n, percent, req.round) <= ToDrop(n, percent, EXACT)
  }

  lemma FloorInPercent(req: Request, covered: nat)
    requires covered >= Floor(req) && EvictsNoMore(req)
    ensures 100.0 * covered as real >= Clamp(req.diversityPercent) * |Sources(Pool(req))| as real
  {
    MeetsPercentageExactly(|Sources(Pool(req))|, req.diversityPercent, req.round);
    assert 100.0 * covered as real >= 100.0 * Floor(req) as real;
  }

  // ---- Strategies 2 and 3 maximise diversity ----

  lemma CoverageBound(pool: seq<Event>, some: seq<Event>, k: nat)
    requires |some| <= k && forall e :: e in some ==> e in pool
    ensures |Sources(some)| <= Min(k, |Sources(pool)|)
  {
    UniqueSourcesCardinality(some);
    assert Sources(some) <= Sources(pool);
    SubsetCardinality(Sources(some), Sources(pool));
  }

  lemma UniqueSourcesSorted(s: seq<Event>)
    requires UniqueSources(s)
    ensures UniqueSources(NewestFirst(s))
  {
    NewestFirstFacts(s);
    UniqueSourcesCardinality(s);
    UniqueSourcesCardinality(NewestFirst(s));
  }

  lemma LatestPerSourceCoverage(pool: seq<Event>, heads: seq<Event>, k: nat)
    requires Heads(pool, heads)
    ensures |Sources(Take(NewestFirst(heads), k))| == Min(k, |Sources(pool)|)
    ensures UniqueSources(Take(NewestFirst(heads), k))
  {
    HeadsFacts(pool, heads);
    UniqueSourcesSorted(heads);
    UniqueSourcesCardinality(Take(NewestFirst(heads), k));
  }

  lemma HybridCoverage(pool: seq<Event>, heads: seq<Event>, k: nat)
    requires Heads(pool, heads)
    ensures |Sources(Fill(Take(heads, k), NewestFirst(pool), k))| == Min(k, |Sources(pool)|)
  {
    var kept := Take(heads, k);
    var r := Fill(kept, NewestFirst(pool), k);
    FillExtends(kept, NewestFirst(pool), k);
    PrefixSources(kept, r);
    HeadsFacts(pool, heads);
    FilledFromHeads(pool, heads, kept, k);
    CoverageBound(pool, r, k);
  }

  lemma FilledFromHeads(pool: seq<Event>, heads: seq<Event>, kept: seq<Event>, k: nat)
    requires Heads(pool, heads) && kept <= heads
    ensures forall e :: e in Fill(kept, NewestFirst(pool), k) ==> e in pool
  {
    HeadsFacts(pool, heads);
    assert forall e :: e in kept ==> e in heads;
    FillFromPool(pool, kept, k);
  }

  /** Strategies 2 and 3 cover min(K, sources) sources, and no K events of the pool cover more. */
  lemma MaximalDiversity(req: Request, clock: int, d: Digest, some: seq<Event>)
    requires req.strategy == LATEST_PER_SOURCE || req.strategy == HYBRID
    requires SelectOutcome(req, clock, Ok(d))
    requires |some| <= req.k && forall e :: e in some ==> e in Pool(req)
    ensures |Sources(d.selected)| == Min(req.k, |Sources(Pool(req))|)
    ensures |Sources(some)| <= |Sources(d.selected)|
    ensures req.strategy == LATEST_PER_SOURCE ==> UniqueSources(d.selected)
  {
    SelectedFrom(req, clock, d);
    var pool, k := Pool(req), req.k;
    var picked :| Picks(req, pool, picked) && IsSummary(req, clock, picked, d);
    NewestFirstFacts(picked);
    CoverageBound(pool, some, k);
    if req.strategy == LATEST_PER_SOURCE {
      var heads :| Heads(pool, heads) && picked == Take(NewestFirst(heads), k);
      LatestPerSourceCoverage(pool, heads, k);
      UniqueSourcesCardinality(picked);
      UniqueSourcesCardinality(d.selected);
    } else {
      var heads :| Heads(pool, heads) && picked == Fill(Take(heads, k), NewestFirst(pool), k);
      HybridCoverage(pool, heads, k);
    }
  }

  /** A taken prefix of a newest-first list contains everything newer than its oldest element. */
  lemma TakeIsGreedy(s: seq<Event>, k: nat, h: Event, low: Event)
    requires h in s && low in Take(NewestFirst(s), k) && low.timestamp < h.timestamp
    ensures h in Take(NewestFirst(s), k)
  {
    NewestFirstFacts(s);
    var x := NewestFirst(s);
    var i :| 0 <= i < |x| && x[i] == h;
    var j :| 0 <= j < |Take(x, k)| && Take(x, k)[j] == low;
    assert x[j] == low;
    assert Stamp(x[j]) < Stamp(x[i]);
    assert i < j;
    assert Take(x, k)[i] == h;
  }

  lemma SourcesOfUnique(s: seq<Event>, late: set<Event>)
    requires UniqueSources(s) && forall e :: e in late ==> e in s
    ensures |SourcesOf(late)| == |late|
  {
    if late != {} {
      var e :| e in late;
      SourcesOfUnique(s, late - {e});
      forall d | d in late - {e}
        ensures d.sourceID != e.sourceID
      {
        var i :| 0 <= i < |s| && s[i] == d;
        var j :| 0 <= j < |s| && s[j] == e;
      }
      assert SourcesOf(late) == SourcesOf(late - {e}) + {e.sourceID};
    }
  }

  lemma LatestPerSourceCutoff(pool: seq<Event>, heads: seq<Event>, k: nat, rival: seq<Event>, t: int)
    requires Heads(pool, heads) && UniqueSources(rival)
    requires |rival| == |Take(NewestFirst(heads), k)| && forall e :: e in rival ==> e in pool
    ensures |AtLeast(Elems(rival), t)| <= |AtLeast(Elems(Take(NewestFirst(heads), k)), t)|
  {
    var digest := Take(NewestFirst(heads), k);
    var late, ours := AtLeast(Elems(rival), t), AtLeast(Elems(digest), t);
    if low :| low in digest && low.timestamp < t {
      forall e | e in late
        ensures e.sourceID in SourcesOf(ours)
      {
        var i := HeadOf(pool, heads, e);
        TakeIsGreedy(heads, k, heads[i], low);
        assert heads[i] in ours;
      }
      SubsetCardinality(SourcesOf(late), SourcesOf(ours));
      SourcesOfUnique(rival, late);
      SourcesOfBounds(ours, t);
    } else {
      LatestPerSourceCoverage(pool, heads, k);
      DistinctCardinality(digest);
      DistinctCardinality(rival);
      assert ours == Elems(digest);
      SubsetCardinality(late, Elems(rival));
    }
  }

  /** Strategy 1 is the freshest digest of its size without any floor, even if it repeats an event. */
  lemma LatestFreshest(pool: seq<Event>, k: nat, rival: seq<Event>)
    requires Rival(pool, Min(k, |pool|), 0, rival)
    ensures AsFresh(Take(NewestFirst(pool), k), rival)
  {
    var sorted, digest := NewestFirst(pool), Take(NewestFirst(pool), k);
    NewestFirstFacts(pool);
    SortedUnchanged(Stamp, digest);
    forall i | 0 <= i < |digest|
      ensures NewestFirst(digest)[i].timestamp >= NewestFirst(rival)[i].timestamp
    {
      var t := NewestFirst(rival)[i].timestamp;
      if sorted[i].timestamp < t {
        PrefixAtLeast(rival, i);
        AtLeastPrefix(pool, i, t);
        SubsetCardinality(AtLeast(Elems(rival), t), AtLeast(Elems(pool), t));
        assert false;
      }
    }
  }

  /** Strategy 1 returns the first K of the stable newest-first order, ties included. */
  lemma LatestSelects(req: Request, clock: int, d: Digest)
    requires req.strategy == LATEST && SelectOutcome(req, clock, Ok(d))
    ensures d.selected == Take(NewestFirst(Pool(req)), req.k)
  {
    SelectedFrom(req, clock, d);
    var picked :| Picks(req, Pool(req), picked) && IsSummary(req, clock, picked, d);
    NewestFirstFacts(Pool(req));
    SortedUnchanged(Stamp, picked);
  }

  /** Strategy 2 is the freshest digest of its size among those with at most one event per source. */
  lemma LatestPerSourceFreshest(pool: seq<Event>, heads: seq<Event>, k: nat, rival: seq<Event>)
    requires Heads(pool, heads) && UniqueSources(rival)
    requires |rival| == |Take(NewestFirst(heads), k)| && forall e :: e in rival ==> e in pool
    ensures AsFresh(Take(NewestFirst(heads), k), rival)
  {
    forall t
      ensures |AtLeast(Elems(rival), t)| <= |AtLeast(Elems(Take(NewestFirst(heads), k)), t)|
    {
      LatestPerSourceCutoff(pool, heads, k, rival, t);
    }
    CutoffsToPositions(Take(NewestFirst(heads), k), rival);
  }

  // ---- End points of the trade-off ----

  /** Filling from candidates that do not repeat an ID just takes the first k. */
  lemma {:induction false} FillTakes(kept: seq<Event>, rest: seq<Event>, k: nat)
    requires UniqueIDs(Take(kept + rest, k)) && |kept| <= k
    ensures Fill(kept, rest, k) == Take(kept + rest, k)
    decreases |rest|
  {
    if |rest| == 0 || |kept| == k {
      assert |rest| == 0 ==> kept + rest == kept;
    } else {
      var s := Take(kept + rest, k);
      forall i | 0 <= i < |kept|
        ensures kept[i].eventID != rest[0].eventID
      {
        assert s[i].eventID != s[|kept|].eventID;
      }
      assert kept + [rest[0]] + rest[1..] == kept + rest;
      FillTakes(kept + [rest[0]], rest[1..], k);
    }
  }

  lemma FillFromEmpty(candidates: seq<Event>, k: nat)
    ensures Fill([], candidates, k) == Take(candidates, k) <==> UniqueIDs(Take(candidates, k))
    ensures UniqueIDs(Fill([], candidates, k))
  {
    FillExtends([], candidates, k);
    assert [] + candidates == candidates;
    if UniqueIDs(Take(candidates, k)) {
      FillTakes([], candidates, k);
    }
  }

  /**
   * Strategy 4 at 0% (or below) returns what strategy 1 returns exactly when that repeats no ID,
   * so in particular when all IDs of the input differ.
   */
  lemma ZeroPercentIsLatest(req: Request, clock: int, d4: Digest, d1: Digest)
    requires SelectOutcome(req.(strategy := GUARANTEED_DIVERSITY), clock, Ok(d4))
    requires SelectOutcome(req.(strategy := LATEST), clock, Ok(d1))
    requires RoundsTo(req.round, |req.events|) && req.diversityPercent <= 0.0
    ensures d4.selected == d1.selected <==> UniqueIDs(d1.selected)
    ensures UniqueIDs(req.events) ==> UniqueIDs(d1.selected)
  {
    CoreOutcome(req.(strategy := GUARANTEED_DIVERSITY), clock, d4);
    SelectedFrom(req.(strategy := LATEST), clock, d1);
    var pool, k := Pool(req), req.k;
    UnsuppressedFacts(req.events, req.suppressionSet);
    NewestFirstFacts(pool);
    var a :| CorePick(pool, k, req.diversityPercent, req.round, true, a)
      && IsSummary(req.(strategy := GUARANTEED_DIVERSITY), clock, a, d4);
    AllHeadsDropped(pool, k, req.diversityPercent, req.round, a, |req.events|);
    ZeroPicks(pool, k, a);
  }

  lemma ZeroPicks(pool: seq<Event>, k: nat, a: seq<Event>)
    requires a == Fill([], NewestFirst(pool), k)
    ensures
      var latest := NewestFirst(Take(NewestFirst(pool), k));
      NewestFirst(a) == latest <==> UniqueIDs(latest)
    ensures UniqueIDs(pool) ==> UniqueIDs(NewestFirst(Take(NewestFirst(pool), k)))
  {
    var latest := Take(NewestFirst(pool), k);
    NewestFirstFacts(pool);
    NewestFirstFacts(a);
    NewestFirstFacts(latest);
    FillFromEmpty(NewestFirst(pool), k);
  }

  lemma AllHeadsDropped(pool: seq<Event>, k: nat, percent: real, round: Rounding, picked: seq<Event>, n: nat)
    requires CorePick(pool, k, percent, round, true, picked) && percent <= 0.0
    requires RoundsTo(round, n) && |pool| <= n
    ensures picked == Fill([], NewestFirst(pool), k)
  {
    var ranked :| Heads(pool, ranked) && picked == CoreDigest(pool, k, ToDrop(|ranked|, percent, round), ranked);
    HeadCount(pool, ranked, round, n);
    ZeroPercentDropsAll(|ranked|, percent, round);
    CoreOfNone(pool, k, ranked);
  }

  lemma CoreOfNone(pool: seq<Event>, k: nat, ranked: seq<Event>)
    ensures CoreDigest(pool, k, |ranked|, ranked) == Fill([], NewestFirst(pool), k)
  {
  }

  lemma HeadCount(pool: seq<Event>, heads: seq<Event>, round: Rounding, n: nat)
    requires Heads(pool, heads) && RoundsTo(round, n) && |pool| <= n
    ensures RoundsTo(round, |heads|)
  {
    HeadsFacts(pool, heads);
    UniqueSourcesCardinality(pool);
  }

  lemma ZeroPercentDropsAll(n: nat, percent: real, round: Rounding)
    requires percent <= 0.0 && RoundsTo(round, n)
    ensures ToDrop(n, percent, round) == n
  {
    if n > 0 {
      assert Keeps(round, 0) && Keeps(round, 1) && Keeps(round, n);
      assert Clamp(percent) / 100.0 == 0.0;
      assert Share(n, percent, round) == round(n as real);
    }
  }

  /** What the fill loop adds depends only on the IDs already present and their number. */
  lemma {:induction false} FillAdds(a: seq<Event>, b: seq<Event>, candidates: seq<Event>, k: nat)
    requires |a| == |b| && IDs(a) == IDs(b) && Elems(a) == Elems(b)
    ensures Elems(Fill(a, candidates, k)) == Elems(Fill(b, candidates, k))
    ensures |Fill(a, candidates, k)| == |Fill(b, candidates, k)|
    decreases |candidates|
  {
    if |candidates| > 0 && |a| < k {
      var e := candidates[0];
      if e.eventID in IDs(a) {
        FillAdds(a, b, candidates[1..], k);
      } else {
        Curation.SourcesAppend(a, e);
        Curation.SourcesAppend(b, e);
        ElemsAppend(a, e);
        ElemsAppend(b, e);
        FillAdds(a + [e], b + [e], candidates[1..], k);
      }
    }
  }

  lemma SameHeads(pool: seq<Event>, a: seq<Event>, b: seq<Event>)
    requires Heads(pool, a) && Heads(pool, b)
    ensures |a| == |b| && Elems(a) == Elems(b) && IDs(a) == IDs(b)
  {
    HeadsFacts(pool, a);
    HeadsFacts(pool, b);
    HeadsWithin(pool, a, b);
    HeadsWithin(pool, b, a);
  }

  lemma HeadsWithin(pool: seq<Event>, a: seq<Event>, b: seq<Event>)
    requires Heads(pool, a) && Heads(pool, b)
    ensures Elems(a) <= Elems(b) && IDs(a) <= IDs(b)
  {
    forall e | e in a
      ensures e in b
    {
      assert e.sourceID in Sources(b);
      var i :| 0 <= i < |b| && b[i].sourceID == e.sourceID;
      assert b[i] in b;
    }
  }

  /** At 100% (or above) with a slot for every source, strategy 4 selects the same events as strategy 3. */
  lemma FullPercentIsHybrid(req: Request, clock: int, d4: Digest, d3: Digest)
    requires SelectOutcome(req.(strategy := GUARANTEED_DIVERSITY), clock, Ok(d4))
    requires SelectOutcome(req.(strategy := HYBRID), clock, Ok(d3))
    requires req.diversityPercent >= 100.0 && req.k >= |Sources(Pool(req))| && RoundsTo(req.round, |req.events|)
    ensures Elems(d4.selected) == Elems(d3.selected) && |d4.selected| == |d3.selected|
  {
    CoreOutcome(req.(strategy := GUARANTEED_DIVERSITY), clock, d4);
    SelectedFrom(req.(strategy := HYBRID), clock, d3);
    var pool, k := Pool(req), req.k;
    var a :| CorePick(pool, k, req.diversityPercent, req.round, true, a)
      && IsSummary(req.(strategy := GUARANTEED_DIVERSITY), clock, a, d4);
    var b :| Picks(req.(strategy := HYBRID), pool, b) && IsSummary(req.(strategy := HYBRID), clock, b, d3);
    UnsuppressedFacts(req.events, req.suppressionSet);
    NoHeadDropped(pool, k, req.diversityPercent, req.round, a, |req.events|);
    var x :| Heads(pool, x) && a == Fill(x, NewestFirst(pool), k);
    var y :| Heads(pool, y) && b == Fill(Take(y, k), NewestFirst(pool), k);
    HeadsFacts(pool, y);
    SameHeads(pool, x, y);
    FillAdds(x, y, NewestFirst(pool), k);
    StableSortElems(Stamp, a);
    StableSortElems(Stamp, b);
  }

  lemma FullPercentDropsNone(n: nat, percent: real, round: Rounding)
    requires percent >= 100.0 && RoundsTo(round, n)
    ensures ToDrop(n, percent, round) == 0
  {
    if n > 0 {
      assert Keeps(round, 0) && Keeps(round, 1) && Keeps(round, n);
      assert Clamp(percent) / 100.0 == 1.0;
      assert Share(n, percent, round) == 0.0;
    }
  }

  lemma CoreWithoutDrop(pool: seq<Event>, k: nat, ranked: seq<Event>)
    requires k >= |ranked|
    ensures CoreDigest(pool, k, 0, ranked) == Fill(ranked, NewestFirst(pool), k)
  {
    assert ranked[0..] == ranked;
  }

  lemma NoHeadDropped(pool: seq<Event>, k: nat, percent: real, round: Rounding, picked: seq<Event>, n: nat)
    requires CorePick(pool, k, percent, round, true, picked) && percent >= 100.0 && k >= |Sources(pool)|
    requires RoundsTo(round, n) && |pool| <= n
    ensures exists ranked :: Heads(pool, ranked) && picked == Fill(ranked, NewestFirst(pool), k)
  {
    var ranked :| Heads(pool, ranked) && picked == CoreDigest(pool, k, ToDrop(|ranked|, percent, round), ranked);
    HeadsFacts(pool, ranked);
    HeadCount(pool, ranked, round, n);
    FullPercentDropsNone(|ranked|, percent, round);
    CoreWithoutDrop(pool, k, ranked);
  }
}
