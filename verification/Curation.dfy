/** The curation engine: the six selectors and `Select`, loop by loop. */
module Curation {
  import opened Wrappers
  import opened Lists
  import opened Sorting
  import opened Canonical
  import opened Digests

  method FilterSuppressed(events: seq<Event>, suppress: set<string>) returns (kept: seq<Event>, removed: nat)
    ensures kept == Unsuppressed(events, suppress)
    ensures |kept| + removed == |events|
  {
    kept, removed := [], 0;
    if |suppress| == 0 {
      NothingSuppressed(events);
      return events, 0;
    }
    for i := 0 to |events|
      invariant kept == Unsuppressed(events[..i], suppress)
      invariant |kept| + removed == i
    {
      assert events[..i+1][..i] == events[..i];
      if events[i].eventID in suppress {
        removed := removed + 1;
      } else {
        kept := kept + [events[i]];
      }
    }
    assert events[..|events|] == events;
  }

  lemma {:induction false} NothingSuppressed(events: seq<Event>)
    ensures Unsuppressed(events, {}) == events
  {
    if |events| > 0 {
      NothingSuppressed(events[..|events|-1]);
    }
  }

  method LatestPerSource(events: seq<Event>) returns (m: map<string, Event>)
    ensures m == LatestMap(events)
  {
    m := map[];
    for i := 0 to |events|
      invariant m == LatestMap(events[..i])
    {
      assert events[..i+1][..i] == events[..i];
      var e := events[i];
      if e.sourceID !in m || e.timestamp > m[e.sourceID].timestamp {
        m := m[e.sourceID := e];
      }
    }
    assert events[..|events|] == events;
  }

  /** Ranging over a Go map visits the entries in an arbitrary order. */
  method RangeValues(m: map<string, Event>) returns (values: seq<Event>)
    requires forall s :: s in m ==> m[s].sourceID == s
    ensures Enumerates(m, values)
  {
    values := [];
    var left := m.Keys;
    while left != {}
      invariant Ranging(m, left, values)
      decreases |left|
    {
      var s :| s in left;
      RangeStep(m, left, values, s);
      values := values + [m[s]];
      left := left - {s};
    }
    assert m.Keys - {} == m.Keys;
  }

  /** The entries of all keys but those left have been visited. */
  ghost predicate Ranging(m: map<string, Event>, left: set<string>, values: seq<Event>) {
    left <= m.Keys && Visited(m, m.Keys - left, values)
  }

  lemma RangeStep(m: map<string, Event>, left: set<string>, values: seq<Event>, s: string)
    requires Ranging(m, left, values) && s in left && m[s].sourceID == s
    ensures Ranging(m, left - {s}, values + [m[s]])
  {
    SourcesAppend(values, m[s]);
    assert m.Keys - (left - {s}) == m.Keys - left + {s};
    forall i | 0 <= i < |values|
      ensures values[i].sourceID != s
    {
      assert values[i].sourceID in Sources(values);
    }
  }

  lemma SourcesAppend(s: seq<Event>, e: Event)
    ensures Sources(s + [e]) == Sources(s) + {e.sourceID}
    ensures IDs(s + [e]) == IDs(s) + {e.eventID}
  {
    assert forall x :: x in s + [e] <==> x in s || x == e;
  }

  method SelectLatest(events: seq<Event>, k: nat) returns (out: seq<Event>)
    ensures out == Take(NewestFirst(events), k)
  {
    var sorted := NewestFirst(events);
    StableSortElems(Stamp, events);
    var n := if k > |sorted| then |sorted| else k;
    return sorted[..n];
  }

  method SelectLatestPerSource(events: seq<Event>, k: nat) returns (out: seq<Event>)
    ensures exists heads :: Heads(events, heads) && out == Take(NewestFirst(heads), k)
  {
    var bySource := LatestPerSource(events);
    LatestMapKeys(events);
    var heads := RangeValues(bySource);
    assert Heads(events, heads);
    out := NewestFirst(heads);
    if k < |out| {
      out := out[..k];
    }
  }

  lemma {:induction false} LatestMapKeys(events: seq<Event>)
    ensures LatestMap(events).Keys == Sources(events)
    ensures forall s :: s in LatestMap(events) ==> LatestMap(events)[s].sourceID == s && LatestMap(events)[s] in events
  {
    if |events| > 0 {
      var t, e := events[..|events|-1], events[|events|-1];
      assert events == t + [e];
      LatestMapKeys(t);
      SourcesAppend(t, e);
    }
  }

  /** The fill loop shared by strategies 3 to 6. */
  method FillFrom(kept: seq<Event>, sorted: seq<Event>, k: nat) returns (out: seq<Event>)
    ensures out == Fill(kept, sorted, k)
  {
    out := kept;
    var selected := IDs(kept);
    for i := 0 to |sorted|
      invariant selected == IDs(out)
      invariant Fill(out, sorted[i..], k) == Fill(kept, sorted, k)
    {
      if |out| >= k {
        break;
      }
      assert sorted[i..][1..] == sorted[i+1..];
      if sorted[i].eventID !in selected {
        SourcesAppend(out, sorted[i]);
        out := out + [sorted[i]];
        selected := selected + {sorted[i].eventID};
      }
    }
  }

  method SelectHybrid(events: seq<Event>, k: nat) returns (out: seq<Event>)
    ensures exists heads :: Heads(events, heads) && out == Fill(Take(heads, k), NewestFirst(events), k)
  {
    var bySource := LatestPerSource(events);
    LatestMapKeys(events);
    var heads := RangeValues(bySource);
    assert Heads(events, heads);
    out := KeepHeads(heads, k);
    if |out| < k {
      out := FillFrom(out, NewestFirst(events), k);
    } else {
      assert out == Fill(out, NewestFirst(events), k);
    }
  }

  /** The first loop of strategy 3: it appends before it tests the size, and the caller's slice trims the result. */
  method KeepHeads(heads: seq<Event>, k: nat) returns (out: seq<Event>)
    ensures out == Take(heads, k)
  {
    out := [];
    for i := 0 to |heads|
      invariant out == heads[..i]
      invariant i == 0 || i < k
    {
      out := out + [heads[i]];
      if |out| >= k {
        break;
      }
    }
    if |out| >= k {
      out := out[..k];
    }
  }

  /** `rand.Shuffle` with any source of randomness: Fisher-Yates over the caller's swap. */
  method Shuffle(s: seq<Event>) returns (r: seq<Event>)
    ensures multiset(r) == multiset(s)
  {
    r := s;
    var i := |s| - 1;
    while i > 0
      invariant |r| == |s| && i < |s|
      invariant multiset(r) == multiset(s)
    {
      var j: nat :| j <= i;
      r := r[i := r[j]][j := r[i]];
      i := i - 1;
    }
  }

  lemma ReorderedHeads(m: map<string, Event>, a: seq<Event>, b: seq<Event>)
    requires Enumerates(m, a) && multiset(a) == multiset(b)
    ensures Enumerates(m, b) && |b| == |a|
  {
    assert Distinct(a);
    PermutationElems(a, b);
    assert forall e :: e in b <==> e in Elems(b);
    assert forall e :: e in a <==> e in Elems(a);
    forall i, j | 0 <= i < j < |b|
      ensures b[i].sourceID != b[j].sourceID
    {
      assert b[i] in a && b[j] in a && b[i] != b[j];
    }
  }

  /** The source-latest events in eviction order: oldest first, or shuffled. */
  method RankHeads(events: seq<Event>, evictRandom: bool) returns (ranked: seq<Event>)
    ensures Heads(events, ranked)
    ensures !evictRandom ==> Descending(Staleness, ranked)
  {
    var bySource := LatestPerSource(events);
    LatestMapKeys(events);
    var listed := RangeValues(bySource);
    if evictRandom {
      ranked := Shuffle(listed);
    } else {
      ranked := OldestFirst(listed);
      StableSortCorrect(Staleness, listed);
    }
    ReorderedHeads(bySource, listed, ranked);
  }

  method GuaranteedDiversityCore(events: seq<Event>, k: nat, diversityPercent: real, round: Rounding, evictRandom: bool)
    returns (kept: seq<Event>)
    ensures CorePick(events, k, diversityPercent, round, !evictRandom, kept)
  {
    var ranked := RankHeads(events, evictRandom);
    var toDrop := ToDrop(|ranked|, diversityPercent, round);
    kept := KeepSurvivors(ranked, toDrop, k);
    if |kept| >= k && toDrop < |ranked| {
      assert kept == CoreDigest(events, k, toDrop, ranked);
      return;
    }
    kept := FillFrom(kept, NewestFirst(events), k);
    assert kept == CoreDigest(events, k, toDrop, ranked);
  }

  method KeepSurvivors(ranked: seq<Event>, toDrop: nat, k: nat) returns (kept: seq<Event>)
    requires toDrop <= |ranked|
    ensures kept == Survivors(ranked, toDrop, k)
  {
    kept := [];
    for i := toDrop to |ranked|
      invariant kept == ranked[toDrop..i]
      invariant i == toDrop || |kept| < k
    {
      kept := kept + [ranked[i]];
      if |kept| >= k {
        assert kept == ranked[toDrop..][..|kept|];
        return;
      }
    }
    assert ranked[toDrop..|ranked|] == ranked[toDrop..];
  }

  method SelectPreferredSources(events: seq<Event>, k: nat, diversityPercent: real, round: Rounding,
                                preferred: seq<string>)
    returns (result: seq<Event>)
    ensures PreferredPick(events, k, diversityPercent, round, preferred, result)
  {
    ghost var base;
    result := GuaranteedDiversityCore(events, k, diversityPercent, round, false);
    base := result;
    if |preferred| == 0 || |result| == 0 {
      return;
    }
    var represented := HasPreferred(result, preferred);
    if represented {
      return;
    }
    var candidate := FindCandidate(events, preferred);
    if candidate.None? {
      return;
    }
    var oldestIdx := FindOldest(result);
    result := result[oldestIdx := candidate.value];
    assert result == InjectPreferred(base, events, preferred);
  }

  method HasPreferred(result: seq<Event>, preferred: seq<string>) returns (found: bool)
    ensures found <==> exists e :: e in result && e.sourceID in preferred
  {
    for i := 0 to |result|
      invariant forall j :: 0 <= j < i ==> result[j].sourceID !in preferred
    {
      if result[i].sourceID in preferred {
        return true;
      }
    }
    return false;
  }

  method FindCandidate(events: seq<Event>, preferred: seq<string>) returns (candidate: Option<Event>)
    ensures candidate == NewestOf(events, preferred)
  {
    candidate := None;
    for i := 0 to |events|
      invariant candidate == NewestOf(events[..i], preferred)
    {
      assert events[..i+1][..i] == events[..i];
      if events[i].sourceID in preferred {
        if candidate.None? || events[i].timestamp > candidate.value.timestamp {
          candidate := Some(events[i]);
        }
      }
    }
    assert events[..|events|] == events;
  }

  method FindOldest(result: seq<Event>) returns (oldestIdx: nat)
    requires |result| > 0
    ensures oldestIdx == OldestIndex(result)
  {
    oldestIdx := 0;
    for i := 0 to |result|
      invariant oldestIdx < |result|
      invariant oldestIdx == if i == 0 then 0 else OldestIndex(result[..i])
    {
      if i > 0 {
        assert result[..i+1][..i] == result[..i];
      }
      if result[i].timestamp < result[oldestIdx].timestamp {
        oldestIdx := i;
      }
    }
    assert result[..|result|] == result;
  }

  method ComputeFreshness(selected: seq<Event>, all: seq<Event>, ref: int) returns (score: real)
    ensures score == FreshnessScore(selected, all, ref)
  {
    if |selected| == 0 || |all| == 0 {
      return 0.0;
    }
    var maxAge := 0;
    for i := 0 to |all|
      invariant maxAge == MaxAge(all[..i], ref)
    {
      assert all[..i+1][..i] == all[..i];
      var a := all[i].AgeAt(ref);
      if a > maxAge {
        maxAge := a;
      }
    }
    assert all[..|all|] == all;
    if maxAge == 0 {
      return 1.0;
    }
    var total := 0.0;
    for i := 0 to |selected|
      invariant total == SumOf(Freshness(maxAge, ref), selected[..i])
    {
      assert selected[..i+1][..i] == selected[..i];
      var fr := 1.0 - selected[i].AgeAt(ref) as real / maxAge as real;
      total := total + fr;
    }
    assert selected[..|selected|] == selected;
    return total / |selected| as real;
  }

  method ComputeDiversity(selected: seq<Event>, all: seq<Event>) returns (score: real)
    ensures score == DiversityScore(selected, all)
  {
    if |all| == 0 {
      return 0.0;
    }
    var allSources := CollectSources(all);
    var selSources := CollectSources(selected);
    if |allSources| == 0 {
      return 0.0;
    }
    return |selSources| as real / |allSources| as real;
  }

  method CollectSources(s: seq<Event>) returns (sources: set<string>)
    ensures sources == Sources(s)
  {
    sources := {};
    for i := 0 to |s|
      invariant sources == Sources(s[..i])
    {
      assert s[..i+1] == s[..i] + [s[i]];
      SourcesAppend(s[..i], s[i]);
      sources := sources + {s[i].sourceID};
    }
    assert s[..|s|] == s;
  }

  method Select(req: Request, clock: int) returns (res: Result<Digest>)
    ensures SelectOutcome(req, clock, res)
  {
    if req.k < 0 {
      return Err("curation: K must be non-negative");
    }
    var now := if req.now == ZERO_TIME then clock else req.now;
    var pool, removed := FilterSuppressed(req.events, req.suppressionSet);
    var picked: seq<Event>;
    if req.strategy == LATEST {
      picked := SelectLatest(pool, req.k);
    } else if req.strategy == LATEST_PER_SOURCE {
      picked := SelectLatestPerSource(pool, req.k);
    } else if req.strategy == HYBRID {
      picked := SelectHybrid(pool, req.k);
    } else if req.strategy == GUARANTEED_DIVERSITY {
      picked := GuaranteedDiversityCore(pool, req.k, req.diversityPercent, req.round, false);
    } else if req.strategy == GUARANTEED_DIVERSITY_RANDOM {
      picked := GuaranteedDiversityCore(pool, req.k, req.diversityPercent, req.round, true);
    } else if req.strategy == PREFERRED_SOURCES {
      picked := SelectPreferredSources(pool, req.k, req.diversityPercent, req.round, req.preferredSources);
    } else {
      return Err("curation: unknown strategy");
    }
    assert Picks(req, pool, picked);
    var selected := NewestFirst(picked);
    var freshness := ComputeFreshness(selected, req.events, now);
    var diversity := ComputeDiversity(selected, req.events);
    res := Ok(Digest(selected, req.strategy, freshness, diversity, Ratio(removed, |req.events|)));
    assert res.value == Summary(req, clock, picked);
  }
}
