/**
 * Strategy 4 picks the freshest digest that meets its diversity floor. The argument counts, for
 * every cutoff instant, the events at or after it: no rival digest has more of them.
 */
module Optimality {
  import opened Lists
  import opened Sorting
  import opened Canonical
  import opened Digests
  import opened DigestFacts

  ghost function SourcesOf(s: set<Event>): set<string> { set e | e in s :: e.sourceID }

  ghost function AtLeast(s: set<Event>, t: int): set<Event> { set e | e in s && e.timestamp >= t }

  ghost function Before(s: set<Event>, t: int): set<Event> { set e | e in s && e.timestamp < t }

  /** A digest that strategy 4 could have returned instead: same size, drawn from the pool, covering m sources. */
  ghost predicate Rival(pool: seq<Event>, size: nat, m: int, rival: seq<Event>) {
    && |rival| == size
    && Distinct(rival)
    && (forall e :: e in rival ==> e in pool)
    && |Sources(rival)| >= m
  }

  /** Position by position, newest first, `a` is at least as fresh as `b`. */
  ghost predicate AsFresh(a: seq<Event>, b: seq<Event>) {
    && |a| == |b|
    && forall i :: 0 <= i < |a| ==> NewestFirst(a)[i].timestamp >= NewestFirst(b)[i].timestamp
  }

  lemma CutoffSplits(s: set<Event>, t: int)
    ensures |AtLeast(s, t)| + |Before(s, t)| == |s|
  {
    assert AtLeast(s, t) !! Before(s, t);
    assert AtLeast(s, t) + Before(s, t) == s;
  }

  lemma SourcesOfBounds(s: set<Event>, t: int)
    ensures |SourcesOf(s)| <= |SourcesOf(AtLeast(s, t))| + |Before(s, t)|
    ensures |SourcesOf(s)| <= |s|
  {
    var f := (e: Event) => e.sourceID;
    ImageCardinality(f, Before(s, t));
    ImageCardinality(f, s);
    assert SourcesOf(s) == Image(f, s);
    var late, early := SourcesOf(AtLeast(s, t)), Image(f, Before(s, t));
    forall e | e in s
      ensures e.sourceID in late + early
    {
      assert e in AtLeast(s, t) || e in Before(s, t);
    }
    SubsetCardinality(SourcesOf(s), late + early);
    assert |late + early| <= |late| + |early|;
  }

  /** h is an event of e's source, no older than e, and either survived or is no newer than every survivor. */
  ghost predicate Backs(pool: seq<Event>, survivors: set<Event>, e: Event, h: Event) {
    && h in pool && h.sourceID == e.sourceID && h.timestamp >= e.timestamp
    && (h in survivors || forall k :: k in survivors ==> k.timestamp >= h.timestamp)
  }

  ghost predicate Backed(pool: seq<Event>, survivors: set<Event>, e: Event) {
    exists h :: Backs(pool, survivors, e, h)
  }

  ghost predicate AllBacked(pool: seq<Event>, survivors: set<Event>) {
    forall e {:trigger Backed(pool, survivors, e)} :: e in pool ==> Backed(pool, survivors, e)
  }

  /** What the optimality argument needs to know of a digest: m survivors, then greedy additions. */
  ghost predicate GreedyAbove(pool: seq<Event>, survivors: set<Event>, digest: set<Event>) {
    && survivors <= digest
    && AllBacked(pool, survivors)
    && (forall e, f :: e in pool && e !in digest && f in digest - survivors ==> f.timestamp >= e.timestamp)
  }

  /** Below the cutoff the rival keeps at least as many events as there are survivors below it. */
  lemma RivalBelow(pool: seq<Event>, survivors: set<Event>, rival: set<Event>, t: int, low: Event)
    requires AllBacked(pool, survivors)
    requires low in survivors && low.timestamp < t
    requires forall e :: e in rival ==> e in pool
    requires |SourcesOf(rival)| >= |survivors|
    ensures |Before(rival, t)| >= |Before(survivors, t)|
  {
    var early, late := AtLeast(survivors, t), AtLeast(rival, t);
    forall e | e in late
      ensures e.sourceID in SourcesOf(early)
    {
      assert Backed(pool, survivors, e);
      var h :| Backs(pool, survivors, e, h);
      assert h in early;
    }
    SubsetCardinality(SourcesOf(late), SourcesOf(early));
    SourcesOfBounds(rival, t);
    SourcesOfBounds(early, t);
    CutoffSplits(survivors, t);
  }

  /** With an addition below the cutoff, everything from the cutoff on is in the digest. */
  lemma AllLateKept(pool: seq<Event>, survivors: set<Event>, digest: set<Event>, f: Event, t: int)
    requires forall e, f :: e in pool && e !in digest && f in digest - survivors ==> f.timestamp >= e.timestamp
    requires f in digest - survivors && f.timestamp < t
    ensures forall e :: e in pool && e.timestamp >= t ==> e in digest
  {
  }

  lemma CutoffDominance(pool: seq<Event>, survivors: set<Event>, digest: set<Event>, rival: set<Event>, t: int)
    requires GreedyAbove(pool, survivors, digest)
    requires |rival| == |digest| && (forall e :: e in rival ==> e in pool)
    requires |SourcesOf(rival)| >= |survivors|
    ensures |AtLeast(rival, t)| <= |AtLeast(digest, t)|
  {
    if f :| f in digest - survivors && f.timestamp < t {
      AllLateKept(pool, survivors, digest, f, t);
      SubsetCardinality(AtLeast(rival, t), AtLeast(digest, t));
    } else {
      CutoffSplits(rival, t);
      CutoffSplits(digest, t);
      RivalNotAbove(pool, survivors, digest, rival, t);
    }
  }

  /** Without an addition below the cutoff, only survivors of the digest are below it, and the rival has as many. */
  lemma RivalNotAbove(pool: seq<Event>, survivors: set<Event>, digest: set<Event>, rival: set<Event>, t: int)
    requires AllBacked(pool, survivors)
    requires forall f :: f in digest - survivors ==> f.timestamp >= t
    requires forall e :: e in rival ==> e in pool
    requires |SourcesOf(rival)| >= |survivors|
    ensures |Before(rival, t)| >= |Before(digest, t)|
  {
    assert Before(digest, t) <= Before(survivors, t);
    SubsetCardinality(Before(digest, t), Before(survivors, t));
    if low :| low in survivors && low.timestamp < t {
      RivalBelow(pool, survivors, rival, t, low);
    } else {
      assert Before(survivors, t) == {};
    }
  }

  lemma EveryCutoff(pool: seq<Event>, survivors: set<Event>, digest: set<Event>, rival: set<Event>)
    requires GreedyAbove(pool, survivors, digest)
    requires |rival| == |digest| && (forall e :: e in rival ==> e in pool)
    requires |SourcesOf(rival)| >= |survivors|
    ensures forall t :: |AtLeast(rival, t)| <= |AtLeast(digest, t)|
  {
    forall t
      ensures |AtLeast(rival, t)| <= |AtLeast(digest, t)|
    {
      CutoffDominance(pool, survivors, digest, rival, t);
    }
  }

  /** In a newest-first sequence, the events at or after position i's instant include the first i + 1. */
  lemma PrefixAtLeast(s: seq<Event>, i: nat)
    requires Distinct(s) && i < |s|
    ensures |AtLeast(Elems(s), NewestFirst(s)[i].timestamp)| >= i + 1
  {
    var x := NewestFirst(s);
    StableSortElems(Stamp, s);
    var first, t := x[..i+1], x[i].timestamp;
    DistinctCardinality(first);
    forall e | e in first
      ensures e in AtLeast(Elems(s), t)
    {
      var j :| 0 <= j < i + 1 && first[j] == e;
      assert Stamp(x[j]) >= Stamp(x[i]);
      assert e in Elems(x);
    }
    SubsetCardinality(Elems(first), AtLeast(Elems(s), t));
  }

  /** ... and a cutoff newer than position i leaves at most the first i. */
  lemma AtLeastPrefix(s: seq<Event>, i: nat, t: int)
    requires i < |s| && NewestFirst(s)[i].timestamp < t
    ensures |AtLeast(Elems(s), t)| <= i
  {
    var x := NewestFirst(s);
    StableSortElems(Stamp, s);
    var first := x[..i];
    DistinctCardinality(first);
    forall e | e in AtLeast(Elems(s), t)
      ensures e in first
    {
      assert e in Elems(x);
      var j :| 0 <= j < |x| && x[j] == e;
      assert j > i ==> Stamp(x[i]) >= Stamp(x[j]);
      assert first[j] == e;
    }
    SubsetCardinality(AtLeast(Elems(s), t), Elems(first));
  }

  /** If no cutoff separates them in b's favour, a is at least as fresh position by position. */
  lemma CutoffsToPositions(a: seq<Event>, b: seq<Event>)
    requires |a| == |b| && Distinct(b)
    requires forall t :: |AtLeast(Elems(b), t)| <= |AtLeast(Elems(a), t)|
    ensures AsFresh(a, b)
  {
    forall i | 0 <= i < |a|
      ensures NewestFirst(a)[i].timestamp >= NewestFirst(b)[i].timestamp
    {
      var t := NewestFirst(b)[i].timestamp;
      if NewestFirst(a)[i].timestamp < t {
        PrefixAtLeast(b, i);
        AtLeastPrefix(a, i, t);
        assert false;
      }
    }
  }

  /** The shape of strategy 4's digest when every survivor of the eviction fits. */
  lemma CoreShape(pool: seq<Event>, k: nat, toDrop: nat, ranked: seq<Event>)
    requires Consistent(pool) && Heads(pool, ranked)
    requires toDrop <= |ranked| && k >= |ranked| - toDrop
    ensures
      var kept, digest := ranked[toDrop..], CoreDigest(pool, k, toDrop, ranked);
      && Survivors(ranked, toDrop, k) == kept
      && kept <= digest
      && |digest| == Min(k, |IDs(pool)|)
      && (forall e :: e in digest ==> e in pool)
      && UniqueIDs(kept) && UniqueIDs(digest)
  {
    var kept := ranked[toDrop..];
    KeptFacts(pool, toDrop, ranked);
    FillSize(pool, kept, k);
    FillExtends(kept, NewestFirst(pool), k);
  }

  lemma KeptFacts(pool: seq<Event>, toDrop: nat, ranked: seq<Event>)
    requires Consistent(pool) && Heads(pool, ranked) && toDrop <= |ranked|
    ensures UniqueIDs(ranked[toDrop..])
    ensures forall e :: e in ranked[toDrop..] ==> e in pool
  {
    HeadsUniqueIDs(pool, ranked);
    TailFacts(ranked, toDrop);
  }

  lemma TailFacts(s: seq<Event>, n: nat)
    requires UniqueIDs(s) && n <= |s|
    ensures UniqueIDs(s[n..])
    ensures forall e :: e in s[n..] ==> e in s
  {
  }

  lemma HeadsUniqueIDs(pool: seq<Event>, heads: seq<Event>)
    requires Consistent(pool) && Heads(pool, heads)
    ensures UniqueIDs(heads)
    ensures forall h :: h in heads ==> h in pool
  {
    HeadsFacts(pool, heads);
    forall i, j | 0 <= i < j < |heads|
      ensures heads[i].eventID != heads[j].eventID
    {
      assert heads[i] in heads && heads[j] in heads;
    }
  }

  lemma HeadsBack(pool: seq<Event>, toDrop: nat, ranked: seq<Event>, e: Event)
    requires Heads(pool, ranked) && Descending(Staleness, ranked) && toDrop <= |ranked| && e in pool
    ensures Backed(pool, Elems(ranked[toDrop..]), e)
  {
    var kept := ranked[toDrop..];
    HeadsFacts(pool, ranked);
    var i := HeadOf(pool, ranked, e);
    var h := ranked[i];
    assert h in ranked;
    if i >= toDrop {
      assert kept[i - toDrop] == h;
    } else {
      forall d | d in kept
        ensures d.timestamp >= h.timestamp
      {
        var j :| 0 <= j < |kept| && kept[j] == d;
        assert Staleness(ranked[i]) >= Staleness(ranked[toDrop + j]);
      }
    }
    assert Backs(pool, Elems(kept), e, h);
  }

  lemma RepresentedIsPresent(pool: seq<Event>, digest: seq<Event>, e: Event)
    requires Consistent(pool) && (forall d :: d in digest ==> d in pool) && e in pool
    ensures e.eventID in IDs(digest) ==> e in digest
  {
  }

  lemma AdditionsNewer(pool: seq<Event>, kept: seq<Event>, k: nat, e: Event, f: Event)
    requires Consistent(pool) && UniqueIDs(kept) && |kept| <= k && (forall d :: d in kept ==> d in pool)
    requires e in pool && e !in Fill(kept, NewestFirst(pool), k)
    requires f in Fill(kept, NewestFirst(pool), k) && f !in kept
    ensures f.timestamp >= e.timestamp
  {
    var sorted := NewestFirst(pool);
    var digest := Fill(kept, sorted, k);
    StableSortElems(Stamp, pool);
    FillSize(pool, kept, k);
    assert e in Elems(sorted);
    FillGreedy(kept, sorted, k, e);
    RepresentedIsPresent(pool, digest, e);
    FillExtends(kept, sorted, k);
    var i :| 0 <= i < |digest| && digest[i] == f;
    assert i >= |kept|;
  }

  lemma CoreIsGreedy(pool: seq<Event>, k: nat, toDrop: nat, ranked: seq<Event>)
    requires Consistent(pool) && Heads(pool, ranked) && Descending(Staleness, ranked)
    requires toDrop <= |ranked| && k >= |ranked| - toDrop
    ensures GreedyAbove(pool, Elems(ranked[toDrop..]), Elems(CoreDigest(pool, k, toDrop, ranked)))
  {
    var kept, digest := ranked[toDrop..], CoreDigest(pool, k, toDrop, ranked);
    CoreShape(pool, k, toDrop, ranked);
    forall e | e in pool
      ensures Backed(pool, Elems(kept), e)
    {
      HeadsBack(pool, toDrop, ranked, e);
    }
    forall e, f | e in pool && e !in digest && f in Elems(digest) - Elems(kept)
      ensures f.timestamp >= e.timestamp
    {
      AdditionsNewer(pool, kept, k, e, f);
    }
  }

  /** Survivors plus greedy additions are as fresh as any rival covering as many sources as there are survivors. */
  lemma GreedyOptimal(pool: seq<Event>, kept: seq<Event>, digest: seq<Event>, rival: seq<Event>)
    requires GreedyAbove(pool, Elems(kept), Elems(digest))
    requires Distinct(kept) && Distinct(digest)
    requires Rival(pool, |digest|, |kept|, rival)
    ensures AsFresh(digest, rival)
  {
    RivalAsSet(pool, kept, digest, rival);
    EveryCutoff(pool, Elems(kept), Elems(digest), Elems(rival));
    CutoffsToPositions(digest, rival);
  }

  lemma RivalAsSet(pool: seq<Event>, kept: seq<Event>, digest: seq<Event>, rival: seq<Event>)
    requires Distinct(kept) && Distinct(digest)
    requires Rival(pool, |digest|, |kept|, rival)
    ensures |Elems(rival)| == |Elems(digest)|
    ensures forall e :: e in Elems(rival) ==> e in pool
    ensures |SourcesOf(Elems(rival))| >= |Elems(kept)|
  {
    DistinctCardinality(kept);
    DistinctCardinality(digest);
    DistinctCardinality(rival);
    assert SourcesOf(Elems(rival)) == Sources(rival);
  }

  /**
   * With one event per EventID, delivered once or often, and room for all survivors, strategy 4's digest is
   * at least as fresh, position by position, as every digest of its size that covers as many sources as it must.
   */
  lemma Strategy4Optimal(pool: seq<Event>, k: nat, toDrop: nat, ranked: seq<Event>, rival: seq<Event>)
    requires Consistent(pool) && Heads(pool, ranked) && Descending(Staleness, ranked)
    requires toDrop <= |ranked| && k >= |ranked| - toDrop
    requires Rival(pool, |CoreDigest(pool, k, toDrop, ranked)|, |ranked| - toDrop, rival)
    ensures AsFresh(CoreDigest(pool, k, toDrop, ranked), rival)
  {
    CoreShape(pool, k, toDrop, ranked);
    CoreIsGreedy(pool, k, toDrop, ranked);
    GreedyOptimal(pool, ranked[toDrop..], CoreDigest(pool, k, toDrop, ranked), rival);
  }

  /** A weight that never decreases with the timestamp. */
  ghost predicate Monotone(w: Event -> real) {
    forall d: Event, e: Event :: d.timestamp <= e.timestamp ==> w(d) <= w(e)
  }

  lemma {:induction false} PointwiseSum(w: Event -> real, x: seq<Event>, y: seq<Event>)
    requires |x| == |y|
    requires forall i :: 0 <= i < |x| ==> w(x[i]) >= w(y[i])
    ensures SumOf(w, x) >= SumOf(w, y)
  {
    if |x| > 0 {
      PointwiseSum(w, x[..|x|-1], y[..|y|-1]);
    }
  }

  /** Position-wise freshness bounds the total of every monotone weight. */
  lemma AsFreshTotals(w: Event -> real, a: seq<Event>, b: seq<Event>)
    requires Monotone(w) && AsFresh(a, b)
    ensures SumOf(w, a) >= SumOf(w, b)
  {
    StableSortElems(Stamp, a);
    StableSortElems(Stamp, b);
    PointwiseSum(w, NewestFirst(a), NewestFirst(b));
    SumOfSorted(w, Stamp, a);
    SumOfSorted(w, Stamp, b);
  }

  /** Strategy 4 maximises the total weight over all digests of its size that meet the floor. */
  lemma Strategy4MaximisesWeight(pool: seq<Event>, k: nat, toDrop: nat, ranked: seq<Event>, rival: seq<Event>,
                                 w: Event -> real)
    requires Consistent(pool) && Heads(pool, ranked) && Descending(Staleness, ranked)
    requires toDrop <= |ranked| && k >= |ranked| - toDrop
    requires Rival(pool, |CoreDigest(pool, k, toDrop, ranked)|, |ranked| - toDrop, rival)
    requires Monotone(w)
    ensures SumOf(w, CoreDigest(pool, k, toDrop, ranked)) >= SumOf(w, rival)
  {
    Strategy4Optimal(pool, k, toDrop, ranked, rival);
    AsFreshTotals(w, CoreDigest(pool, k, toDrop, ranked), rival);
  }

  /** With any eviction order the core still returns a rival: it meets the floor with the same size. */
  lemma CoreIsRival(pool: seq<Event>, k: nat, toDrop: nat, ranked: seq<Event>)
    requires Consistent(pool) && Heads(pool, ranked)
    requires toDrop <= |ranked| && k >= |ranked| - toDrop
    ensures Rival(pool, Min(k, |IDs(pool)|), |ranked| - toDrop, CoreDigest(pool, k, toDrop, ranked))
  {
    var kept, digest := ranked[toDrop..], CoreDigest(pool, k, toDrop, ranked);
    CoreShape(pool, k, toDrop, ranked);
    UniqueSourcesCardinality(kept);
    assert Sources(kept) <= Sources(digest) by { assert forall e :: e in kept ==> e in digest; }
    SubsetCardinality(Sources(kept), Sources(digest));
  }
}
