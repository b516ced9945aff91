/** What callers of `Select` may rely on, for every map order and every shuffle. */
module StrategyTheorems {
  import opened Wrappers
  import opened Lists
  import opened Sorting
  import opened Canonical
  import opened Digests
  import opened DigestFacts

  ghost function ReferenceTime(req: Request, clock: int): int { if req.now == ZERO_TIME then clock else req.now }

  /** The survivors of the eviction, m in number, that strategies 4 to 6 must represent. */
  ghost function Floor(req: Request): nat {
    |Sources(Pool(req))| - ToDrop(|Sources(Pool(req))|, req.diversityPercent, req.round)
  }

  lemma {:induction false} UnsuppressedFacts(events: seq<Event>, suppress: set<string>)
    ensures forall e :: e in Unsuppressed(events, suppress) <==> e in events && e.eventID !in suppress
    ensures |Unsuppressed(events, suppress)| <= |events|
    ensures UniqueIDs(events) ==> UniqueIDs(Unsuppressed(events, suppress))
  {
    if |events| > 0 {
      var n := |events| - 1;
      var t, e := events[..n], events[n];
      assert events == t + [e];
      UnsuppressedFacts(t, suppress);
      if UniqueIDs(events) {
        var u := Unsuppressed(t, suppress);
        forall i | 0 <= i < |u|
          ensures u[i].eventID != e.eventID
        {
          assert u[i] in t;
          var j :| 0 <= j < n && t[j] == u[i];
          assert events[j].eventID != events[n].eventID;
        }
      }
    }
  }

  /** Filtering goes event by event and keeps the order: nothing but the suppressed events is lost. */
  lemma {:induction false} UnsuppressedConcat(a: seq<Event>, b: seq<Event>, suppress: set<string>)
    ensures Unsuppressed(a + b, suppress) == Unsuppressed(a, suppress) + Unsuppressed(b, suppress)
  {
    if |b| == 0 {
      assert a + b == a;
    } else {
      var n := |b| - 1;
      var last := if b[n].eventID in suppress then [] else [b[n]];
      assert (a + b)[..|a + b| - 1] == a + b[..n] && (a + b)[|a + b| - 1] == b[n];
      UnsuppressedConcat(a, b[..n], suppress);
      assert Unsuppressed(a + b, suppress) == Unsuppressed(a + b[..n], suppress) + last;
    }
  }

  lemma UnsuppressedOne(e: Event, suppress: set<string>)
    ensures Unsuppressed([e], suppress) == if e.eventID in suppress then [] else [e]
  {
    assert [e][..0] == [];
  }

  // ---- Shape of the selection ----

  lemma NewestFirstFacts(s: seq<Event>)
    ensures Descending(Stamp, NewestFirst(s))
    ensures forall e :: e in NewestFirst(s) <==> e in s
    ensures IDs(NewestFirst(s)) == IDs(s) && Sources(NewestFirst(s)) == Sources(s)
    ensures UniqueIDs(s) <==> UniqueIDs(NewestFirst(s))
  {
    StableSortElems(Stamp, s);
    assert forall e :: e in NewestFirst(s) <==> e in Elems(NewestFirst(s));
    assert forall e :: e in s <==> e in Elems(s);
    UniqueIDsCardinality(s);
    UniqueIDsCardinality(NewestFirst(s));
  }

  lemma FillFromPool(pool: seq<Event>, kept: seq<Event>, k: nat)
    requires forall e :: e in kept ==> e in pool
    ensures forall e :: e in Fill(kept, NewestFirst(pool), k) ==> e in pool
  {
    var r := Fill(kept, NewestFirst(pool), k);
    FillExtends(kept, NewestFirst(pool), k);
    NewestFirstFacts(pool);
    forall e | e in r
      ensures e in pool
    {
      var i :| 0 <= i < |r| && r[i] == e;
      if i < |kept| { assert kept[i] == e; }
    }
  }

  lemma HeadsUnique(pool: seq<Event>, heads: seq<Event>, some: seq<Event>)
    requires Heads(pool, heads) && UniqueSources(some)
    requires forall e :: e in some ==> e in heads
    ensures forall e :: e in some ==> e in pool
    ensures IDsDetermineSource(pool) ==> UniqueIDs(some)
  {
    HeadsFacts(pool, heads);
    if IDsDetermineSource(pool) {
      forall i, j | 0 <= i < j < |some|
        ensures some[i].eventID != some[j].eventID
      {
        assert some[i] in pool && some[j] in pool;
      }
    }
  }

  /** picked comes from the pool, and if IDs determine sources, it repeats no ID and has `size` events. */
  ghost predicate WellShaped(pool: seq<Event>, k: nat, size: nat, picked: seq<Event>) {
    && (forall e :: e in picked ==> e in pool)
    && (IDsDetermineSource(pool) ==> UniqueIDs(picked))
    && (IDsDetermineSource(pool) && k >= 1 ==> |picked| == size)
  }

  /** Heads topped up by the fill loop, as strategies 3 to 5 build them. */
  lemma FilledHeadsShape(pool: seq<Event>, heads: seq<Event>, kept: seq<Event>, k: nat)
    requires Heads(pool, heads) && UniqueSources(kept)
    requires forall e :: e in kept ==> e in heads
    requires k >= 1 ==> |kept| <= k
    ensures WellShaped(pool, k, Min(k, |IDs(pool)|), Fill(kept, NewestFirst(pool), k))
  {
    HeadsUnique(pool, heads, kept);
    FillFromPool(pool, kept, k);
    FillExtends(kept, NewestFirst(pool), k);
    if IDsDetermineSource(pool) && k >= 1 {
      FillSize(pool, kept, k);
    }
  }

  lemma CoreDigestShape(pool: seq<Event>, k: nat, toDrop: nat, ranked: seq<Event>)
    requires Heads(pool, ranked) && toDrop <= |ranked|
    ensures WellShaped(pool, k, Min(k, |IDs(pool)|), CoreDigest(pool, k, toDrop, ranked))
  {
    var kept := Survivors(ranked, toDrop, k);
    assert kept == ranked[toDrop..toDrop + |kept|];
    FilledHeadsShape(pool, ranked, kept, k);
  }

  lemma CorePickShape(pool: seq<Event>, k: nat, percent: real, round: Rounding, oldest: bool, picked: seq<Event>)
    requires CorePick(pool, k, percent, round, oldest, picked)
    ensures WellShaped(pool, k, Min(k, |IDs(pool)|), picked)
  {
    var ranked :| Heads(pool, ranked) && picked == CoreDigest(pool, k, ToDrop(|ranked|, percent, round), ranked);
    CoreDigestShape(pool, k, ToDrop(|ranked|, percent, round), ranked);
  }

  lemma LatestPerSourceShape(pool: seq<Event>, heads: seq<Event>, k: nat)
    requires Heads(pool, heads)
    ensures WellShaped(pool, k, Min(k, |Sources(pool)|), Take(NewestFirst(heads), k))
    ensures |Take(NewestFirst(heads), k)| == Min(k, |Sources(pool)|)
  {
    HeadsFacts(pool, heads);
    NewestFirstFacts(heads);
    HeadsUnique(pool, heads, heads);
  }

  lemma {:induction false} NewestOfFacts(events: seq<Event>, preferred: seq<string>)
    ensures NewestOf(events, preferred).Some? <==> exists e :: e in events && e.sourceID in preferred
    ensures
      var best := NewestOf(events, preferred);
      best.Some? ==>
        && best.value in events && best.value.sourceID in preferred
        && forall e :: e in events && e.sourceID in preferred ==> e.timestamp <= best.value.timestamp
  {
    if |events| > 0 {
      NewestOfFacts(events[..|events|-1], preferred);
      assert events == events[..|events|-1] + [events[|events|-1]];
    }
  }

  lemma InjectedShape(pool: seq<Event>, base: seq<Event>, preferred: seq<string>)
    requires forall e :: e in base ==> e in pool
    ensures forall e :: e in InjectPreferred(base, pool, preferred) ==> e in pool
    ensures |InjectPreferred(base, pool, preferred)| == |base|
    ensures IDsDetermineSource(pool) && UniqueIDs(base) ==> UniqueIDs(InjectPreferred(base, pool, preferred))
  {
    var r := InjectPreferred(base, pool, preferred);
    NewestOfFacts(pool, preferred);
    if r != base {
      var c, i := NewestOf(pool, preferred).value, OldestIndex(base);
      assert r == base[i := c];
      forall j | 0 <= j < |base|
        ensures IDsDetermineSource(pool) ==> base[j].eventID != c.eventID
        ensures r[j] in pool
      {
        assert base[j] in base && base[j] in pool && base[j].sourceID !in preferred;
      }
    }
  }

  lemma PicksShape(req: Request, picked: seq<Event>)
    requires req.k >= 0 && LATEST < req.strategy && Picks(req, Pool(req), picked)
    ensures WellShaped(Pool(req), req.k,
                       Min(req.k, |if req.strategy == LATEST_PER_SOURCE then Sources(Pool(req)) else IDs(Pool(req))|),
                       picked)
    ensures req.strategy == LATEST_PER_SOURCE ==> |picked| == Min(req.k, |Sources(Pool(req))|)
  {
    var pool, k := Pool(req), req.k;
    if req.strategy == LATEST_PER_SOURCE {
      var heads :| Heads(pool, heads) && picked == Take(NewestFirst(heads), k);
      LatestPerSourceShape(pool, heads, k);
    } else if req.strategy == HYBRID {
      var heads :| Heads(pool, heads) && picked == Fill(Take(heads, k), NewestFirst(pool), k);
      assert Take(heads, k) == heads[0..|Take(heads, k)|];
      FilledHeadsShape(pool, heads, Take(heads, k), k);
    } else if req.strategy == PREFERRED_SOURCES {
      var base :| CorePick(pool, k, req.diversityPercent, req.round, true, base)
        && picked == InjectPreferred(base, pool, req.preferredSources);
      CorePickShape(pool, k, req.diversityPercent, req.round, true, base);
      InjectedShape(pool, base, req.preferredSources);
    } else {
      CorePickShape(pool, k, req.diversityPercent, req.round, req.strategy == GUARANTEED_DIVERSITY, picked);
    }
  }

  /** The selection is newest-first, drawn from the unsuppressed events, of the expected size, without repeats. */
  lemma SelectShape(req: Request, clock: int, d: Digest)
    requires SelectOutcome(req, clock, Ok(d))
    ensures Descending(Stamp, d.selected) && d.strategy == req.strategy
    ensures forall e :: e in d.selected ==> e in req.events && e.eventID !in req.suppressionSet
    ensures req.strategy == LATEST ==> |d.selected| == Min(req.k, |Pool(req)|)
    ensures req.strategy == LATEST_PER_SOURCE ==> |d.selected| == Min(req.k, |Sources(Pool(req))|)
    ensures req.strategy >= HYBRID && IDsDetermineSource(req.events) && req.k >= 1 ==>
      |d.selected| == Min(req.k, |IDs(Pool(req))|)
    ensures req.strategy != LATEST && IDsDetermineSource(req.events) ==> UniqueIDs(d.selected)
    ensures UniqueIDs(req.events) ==> IDsDetermineSource(req.events) && |IDs(Pool(req))| == |Pool(req)|
  {
    var picked :| Picks(req, Pool(req), picked) && d == Summary(req, clock, picked);
    PickedShape(req, picked);
    UniqueInput(req);
  }

  lemma PickedShape(req: Request, picked: seq<Event>)
    requires req.k >= 0 && Picks(req, Pool(req), picked)
    ensures
      var selected := NewestFirst(picked);
      && Descending(Stamp, selected)
      && (forall e :: e in selected ==> e in req.events && e.eventID !in req.suppressionSet)
      && (req.strategy == LATEST ==> |selected| == Min(req.k, |Pool(req)|))
      && (req.strategy == LATEST_PER_SOURCE ==> |selected| == Min(req.k, |Sources(Pool(req))|))
      && (req.strategy >= HYBRID && IDsDetermineSource(req.events) && req.k >= 1 ==>
            |selected| == Min(req.k, |IDs(Pool(req))|))
      && (req.strategy != LATEST && IDsDetermineSource(req.events) ==> UniqueIDs(selected))
  {
    UnsuppressedFacts(req.events, req.suppressionSet);
    NewestFirstFacts(Pool(req));
    if req.strategy != LATEST {
      PicksShape(req, picked);
    }
    NewestFirstFacts(picked);
  }

  lemma UniqueInput(req: Request)
    ensures UniqueIDs(req.events) ==> IDsDetermineSource(req.events) && |IDs(Pool(req))| == |Pool(req)|
  {
    UnsuppressedFacts(req.events, req.suppressionSet);
    UniqueIDsCardinality(Pool(req));
    if UniqueIDs(req.events) { UniqueIsConsistent(req.events); }
  }

  // ---- Scores ----

  lemma {:induction false} MaxAgeBounds(all: seq<Event>, ref: int, e: Event)
    requires e in all
    ensures e.AgeAt(ref) <= MaxAge(all, ref)
  {
    var n := |all| - 1;
    assert all == all[..n] + [all[n]];
    if e in all[..n] { MaxAgeBounds(all[..n], ref, e); }
  }

  lemma {:induction false} SumWithin(w: Event -> real, s: seq<Event>)
    requires forall e :: e in s ==> 0.0 <= w(e) <= 1.0
    ensures 0.0 <= SumOf(w, s) <= |s| as real
  {
    if |s| > 0 {
      SumWithin(w, s[..|s|-1]);
      assert s[|s|-1] in s;
    }
  }

  lemma FractionWithin(a: real, b: real)
    requires 0.0 <= a <= b && b > 0.0
    ensures 0.0 <= a / b <= 1.0
  {
  }

  /** All three scores lie in [0, 1] for whatever `Select` returns. */
  lemma ScoresWithinUnit(req: Request, clock: int, d: Digest)
    requires SelectOutcome(req, clock, Ok(d))
    ensures 0.0 <= d.freshness <= 1.0
    ensures 0.0 <= d.diversity <= 1.0
    ensures 0.0 <= d.redundancy <= 1.0
  {
    SelectShape(req, clock, d);
    UnsuppressedFacts(req.events, req.suppressionSet);
    var ref := ReferenceTime(req, clock);
    var maxAge := MaxAge(req.events, ref);
    if |d.selected| > 0 && maxAge > 0 {
      var w := Freshness(maxAge, ref);
      forall e | e in d.selected
        ensures 0.0 <= w(e) <= 1.0
      {
        MaxAgeBounds(req.events, ref, e);
        FractionWithin(e.AgeAt(ref) as real, maxAge as real);
      }
      SumWithin(w, d.selected);
      FractionWithin(SumOf(w, d.selected), |d.selected| as real);
    }
    assert Sources(d.selected) <= Sources(req.events);
    SubsetCardinality(Sources(d.selected), Sources(req.events));
    if |Sources(req.events)| > 0 {
      FractionWithin(|Sources(d.selected)| as real, |Sources(req.events)| as real);
    }
    if |req.events| > 0 {
      FractionWithin((|req.events| - |Pool(req)|) as real, |req.events| as real);
    }
  }

  // ---- What strategies return, seen from the request ----

  ghost predicate IsSummary(req: Request, clock: int, picked: seq<Event>, d: Digest) {
    && d.selected == NewestFirst(picked)
    && d.freshness == FreshnessScore(d.selected, req.events, ReferenceTime(req, clock))
  }

  lemma SelectedFrom(req: Request, clock: int, d: Digest)
    requires SelectOutcome(req, clock, Ok(d))
    ensures req.k >= 0
    ensures exists picked :: Picks(req, Pool(req), picked) && IsSummary(req, clock, picked, d)
  {
    var picked :| Picks(req, Pool(req), picked) && d == Summary(req, clock, picked);
    assert IsSummary(req, clock, picked, d);
  }

  /** What strategies 4 and 5 return, seen from the request. */
  lemma CoreOutcome(req: Request, clock: int, d: Digest)
    requires req.strategy == GUARANTEED_DIVERSITY || req.strategy == GUARANTEED_DIVERSITY_RANDOM
    requires SelectOutcome(req, clock, Ok(d))
    ensures req.k >= 0
    ensures exists a ::
      && CorePick(Pool(req), req.k, req.diversityPercent, req.round, req.strategy == GUARANTEED_DIVERSITY, a)
      && IsSummary(req, clock, a, d)
  {
    SelectedFrom(req, clock, d);
    var picked :| Picks(req, Pool(req), picked) && IsSummary(req, clock, picked, d);
    assert CorePick(Pool(req), req.k, req.diversityPercent, req.round, req.strategy == GUARANTEED_DIVERSITY, picked);
  }
}
