/** Exactly when strategy 6 is the freshest digest that meets the floor and shows a preferred source. */
module PreferredTheorems {
  import opened Wrappers
  import opened Lists
  import opened Sorting
  import opened Canonical
  import opened Digests
  import opened DigestFacts
  import opened Optimality
  import opened StrategyTheorems
  import opened FreshnessTheorems
  import opened DiversityTheorems
  import Curation

  /** The newest head other than c. */
  ghost function NewestBut(ranked: seq<Event>, c: Event): Event
    requires |ranked| >= 2
  {
    if ranked[|ranked|-1] == c then ranked[|ranked|-2] else ranked[|ranked|-1]
  }

  /**
   * With fewer slots than survivors, the k oldest survivors are kept; c is the newest preferred event. If one of
   * the k is preferred, nothing is replaced: then c must be no newer than the oldest of them, and the others as
   * new as the newest head. If none is, c replaces the oldest: then the others must be all that is left besides
   * c, or as new as the newest head besides c.
   */
  ghost predicate NothingFresher(ranked: seq<Event>, d: nat, k: nat, preferred: seq<string>, c: Event)
    requires 1 <= k < |ranked| - d
  {
    var n := |ranked|;
    if PreferredPresent(ranked[d..d+k], preferred) then
      c.timestamp == ranked[d].timestamp && (k == 1 || ranked[d+1].timestamp == ranked[n-1].timestamp)
    else
      k == 1 || (ranked[n-1] == c && d + k == n - 1) || ranked[d+1].timestamp == NewestBut(ranked, c).timestamp
  }

  // ---- The newest preferred event is a head, and the oldest survivor is the one replaced ----

  lemma {:induction false} NewestIsLatest(events: seq<Event>, preferred: seq<string>)
    requires NewestOf(events, preferred).Some?
    ensures
      var c := NewestOf(events, preferred).value;
      c.sourceID in LatestMap(events) && LatestMap(events)[c.sourceID] == c
  {
    var n := |events| - 1;
    var t, e := events[..n], events[n];
    Curation.LatestMapKeys(t);
    NewestOfFacts(t, preferred);
    if NewestOf(t, preferred).Some? {
      NewestIsLatest(t, preferred);
    } else {
      assert e.sourceID !in LatestMap(t);
    }
  }

  lemma NewestIsHead(pool: seq<Event>, heads: seq<Event>, preferred: seq<string>)
    requires Heads(pool, heads) && NewestOf(pool, preferred).Some?
    ensures NewestOf(pool, preferred).value in heads
  {
    NewestIsLatest(pool, preferred);
    var c := NewestOf(pool, preferred).value;
    assert c.sourceID in Sources(heads);
    var i :| 0 <= i < |heads| && heads[i].sourceID == c.sourceID;
    assert heads[i] in heads;
  }

  lemma {:induction false} OldestIsFirst(s: seq<Event>)
    requires |s| > 0 && Descending(Staleness, s)
    ensures OldestIndex(s) == 0
  {
    if |s| > 1 {
      OldestIsFirst(s[..|s|-1]);
      assert Staleness(s[0]) >= Staleness(s[|s|-1]);
    }
  }

  /** What strategy 6 makes of the k oldest survivors. */
  ghost function Injected(ranked: seq<Event>, d: nat, k: nat, preferred: seq<string>, c: Event): seq<Event>
    requires 1 <= k < |ranked| - d
  {
    if PreferredPresent(ranked[d..d+k], preferred) then ranked[d..d+k] else [c] + ranked[d+1..d+k]
  }

  lemma InjectedCore(pool: seq<Event>, k: nat, d: nat, ranked: seq<Event>, preferred: seq<string>)
    requires Descending(Staleness, ranked) && d <= |ranked| && 1 <= k < |ranked| - d
    requires PreferredPresent(pool, preferred)
    ensures NewestOf(pool, preferred).Some?
    ensures InjectPreferred(CoreDigest(pool, k, d, ranked), pool, preferred)
         == Injected(ranked, d, k, preferred, NewestOf(pool, preferred).value)
  {
    NewestOfFacts(pool, preferred);
    TruncatedCore(pool, k, d, ranked);
    WindowOrder(ranked, d, k);
    OldestIsFirst(ranked[d..d+k]);
  }

  /** A window of the heads: its first event and the others. */
  lemma WindowOrder(ranked: seq<Event>, d: nat, k: nat)
    requires Descending(Staleness, ranked) && k >= 1 && d + k <= |ranked|
    ensures Descending(Staleness, ranked[d..d+k])
    ensures ranked[d..d+k] == [ranked[d]] + ranked[d+1..d+k]
    ensures forall x :: ranked[d..d+k][0 := x] == [x] + ranked[d+1..d+k]
  {
    var window := ranked[d..d+k];
    forall i, j | 0 <= i < j < |window|
      ensures Staleness(window[i]) >= Staleness(window[j])
    {
      assert Staleness(ranked[d+i]) >= Staleness(ranked[d+j]);
    }
  }

  // ---- What the rivals can have ----

  /** A rival of k events from k sources, one of them preferred. */
  ghost predicate Contender(pool: seq<Event>, k: nat, preferred: seq<string>, rival: seq<Event>) {
    Rival(pool, k, k, rival) && PreferredPresent(rival, preferred)
  }

  /** From a cutoff on, a contender has no more events than there are heads, than k, and past c, than k - 1. */
  lemma ContenderAtMost(pool: seq<Event>, ranked: seq<Event>, k: nat, preferred: seq<string>, rival: seq<Event>, t: int)
    requires Heads(pool, ranked) && Contender(pool, k, preferred, rival)
    ensures |AtLeast(Elems(rival), t)| <= |AtLeast(Elems(ranked), t)|
    ensures |AtLeast(Elems(rival), t)| <= k
    ensures NewestOf(pool, preferred).Some?
    ensures t > NewestOf(pool, preferred).value.timestamp ==> |AtLeast(Elems(rival), t)| <= k - 1
  {
    var late := AtLeast(Elems(rival), t);
    DistinctCardinality(rival);
    SubsetCardinality(late, Elems(rival));
    NewestOfFacts(pool, preferred);
    var p :| p in rival && p.sourceID in preferred;
    if t > NewestOf(pool, preferred).value.timestamp {
      SubsetCardinality(late, Elems(rival) - {p});
    }
    ContenderHeads(pool, ranked, rival, t);
  }

  lemma ContenderHeads(pool: seq<Event>, ranked: seq<Event>, rival: seq<Event>, t: int)
    requires Heads(pool, ranked) && |Sources(rival)| >= |rival| && forall e :: e in rival ==> e in pool
    ensures |AtLeast(Elems(rival), t)| <= |AtLeast(Elems(ranked), t)|
  {
    var late, heads := AtLeast(Elems(rival), t), AtLeast(Elems(ranked), t);
    forall e | e in late
      ensures e.sourceID in SourcesOf(heads)
    {
      var i := HeadOf(pool, ranked, e);
      assert ranked[i] in heads;
    }
    UniqueSourcesCardinality(rival);
    SourcesOfUnique(rival, late);
    SubsetCardinality(SourcesOf(late), SourcesOf(heads));
    SourcesOfBounds(heads, t);
  }

  // ---- If nothing is fresher, no contender is ahead at any cutoff ----

  /** `some` events of the digest are at or after the cutoff, so it has at least that many. */
  lemma HasAtLeast(digest: seq<Event>, some: seq<Event>, t: int)
    requires Distinct(some) && forall e :: e in some ==> e in digest && e.timestamp >= t
    ensures |AtLeast(Elems(digest), t)| >= |some|
  {
    DistinctCardinality(some);
    SubsetCardinality(Elems(some), AtLeast(Elems(digest), t));
  }

  /** Every head at or after the cutoff is in the digest. */
  lemma HasAllHeads(digest: seq<Event>, ranked: seq<Event>, t: int)
    requires forall e :: e in ranked && e.timestamp >= t ==> e in digest
    ensures |AtLeast(Elems(digest), t)| >= |AtLeast(Elems(ranked), t)|
  {
    SubsetCardinality(AtLeast(Elems(ranked), t), AtLeast(Elems(digest), t));
  }

  /** The three ways in which a digest of k events reaches every contender's count at the cutoff t. */
  ghost predicate Reaches(digest: seq<Event>, ranked: seq<Event>, k: nat, c: Event, t: int) {
    || |AtLeast(Elems(digest), t)| >= k
    || |AtLeast(Elems(digest), t)| >= |AtLeast(Elems(ranked), t)|
    || (t > c.timestamp && |AtLeast(Elems(digest), t)| >= k - 1)
  }

  /** No replacement: the oldest is as new as c, and the others are as new as anything (v). */
  lemma KeptReaches(oldest: Event, others: seq<Event>, heads: seq<Event>, c: Event, v: int, t: int)
    requires Distinct([oldest] + others) && Distinct(others) && c.timestamp == oldest.timestamp
    requires forall e :: e in others ==> e.timestamp >= oldest.timestamp && e.timestamp >= v
    requires |others| > 0 ==> forall e :: e in heads ==> e.timestamp <= v
    ensures Reaches([oldest] + others, heads, |others| + 1, c, t)
  {
    var digest := [oldest] + others;
    if t <= c.timestamp {
      HasAtLeast(digest, digest, t);
    } else if |others| > 0 {
      if t <= v { HasAtLeast(digest, others, t); } else { HasAllHeads(digest, heads, t); }
    }
  }

  /** c replaced the oldest, and the others are as new as any other head. */
  lemma ReplacedReaches(others: seq<Event>, heads: seq<Event>, c: Event, v: int, t: int)
    requires Distinct([c] + others) && Distinct(others)
    requires forall e :: e in others ==> e.timestamp >= v
    requires |others| > 0 ==> forall e :: e in heads ==> e == c || e.timestamp <= v
    ensures Reaches([c] + others, heads, |others| + 1, c, t)
  {
    var digest := [c] + others;
    if t <= c.timestamp {
      if |others| == 0 || t <= v { HasAtLeast(digest, digest, t); } else { HasAllHeads(digest, heads, t); }
    } else if |others| > 0 {
      if t <= v { HasAtLeast(digest, others, t); } else { HasAllHeads(digest, heads, t); }
    }
  }

  /** c replaced the oldest, and every other head is in the digest or no newer than the oldest. */
  lemma CompleteReaches(oldest: Event, others: seq<Event>, heads: seq<Event>, c: Event, t: int)
    requires Distinct([c] + others)
    requires forall e :: e in [c] + others ==> e.timestamp >= oldest.timestamp
    requires forall e :: e in heads ==> e in [c] + others || e.timestamp <= oldest.timestamp
    ensures Reaches([c] + others, heads, |others| + 1, c, t)
  {
    var digest := [c] + others;
    if t <= oldest.timestamp { HasAtLeast(digest, digest, t); } else { HasAllHeads(digest, heads, t); }
  }

  // ---- The heads by age ----

  lemma NoneNewer(ranked: seq<Event>)
    requires Descending(Staleness, ranked) && |ranked| > 0
    ensures forall e :: e in ranked ==> e.timestamp <= ranked[|ranked|-1].timestamp
  {
    forall e | e in ranked
      ensures e.timestamp <= ranked[|ranked|-1].timestamp
    {
      var l :| 0 <= l < |ranked| && ranked[l] == e;
      assert l < |ranked| - 1 ==> Staleness(ranked[l]) >= Staleness(ranked[|ranked|-1]);
    }
  }

  lemma NoneNewerBut(ranked: seq<Event>, c: Event)
    requires Descending(Staleness, ranked) && |ranked| >= 2
    ensures forall e :: e in ranked ==> e == c || e.timestamp <= NewestBut(ranked, c).timestamp
  {
    if ranked[|ranked|-1] == c {
      var front := ranked[..|ranked|-1];
      assert ranked == front + [c];
      FrontOrder(ranked, |ranked| - 1);
      NoneNewer(front);
    } else {
      NoneNewer(ranked);
    }
  }

  lemma FrontOrder(ranked: seq<Event>, n: nat)
    requires Descending(Staleness, ranked) && n <= |ranked|
    ensures Descending(Staleness, ranked[..n])
  {
  }

  lemma NoneOlder(ranked: seq<Event>, i: nat, j: nat)
    requires Descending(Staleness, ranked) && i < |ranked| && i <= j <= |ranked|
    ensures forall e :: e in ranked[i..j] ==> e.timestamp >= ranked[i].timestamp
  {
    forall e | e in ranked[i..j]
      ensures e.timestamp >= ranked[i].timestamp
    {
      var l :| 0 <= l < j - i && ranked[i..j][l] == e;
      assert l > 0 ==> Staleness(ranked[i]) >= Staleness(ranked[i+l]);
    }
  }

  /** The heads of a window are different, and different from those after it. */
  lemma WindowApart(ranked: seq<Event>, i: nat, j: nat)
    requires Distinct(ranked) && i <= j <= |ranked|
    ensures Distinct(ranked[i..j]) && |ranked[i..j]| == j - i
    ensures forall e :: e in ranked[i..j] ==> e in ranked
    ensures forall l :: j <= l < |ranked| ==> ranked[l] !in ranked[i..j]
  {
  }

  lemma JoinDistinct(c: Event, others: seq<Event>)
    requires Distinct(others) && c !in others
    ensures Distinct([c] + others)
  {
  }

  lemma KeptCase(ranked: seq<Event>, d: nat, k: nat, c: Event, t: int)
    requires Distinct(ranked) && Descending(Staleness, ranked) && 1 <= k < |ranked| - d
    requires c.timestamp == ranked[d].timestamp
    requires k == 1 || ranked[d+1].timestamp == ranked[|ranked|-1].timestamp
    ensures Reaches(ranked[d..d+k], ranked, k, c, t)
  {
    var others := ranked[d+1..d+k];
    WindowOrder(ranked, d, k);
    WindowApart(ranked, d, d + k);
    WindowApart(ranked, d + 1, d + k);
    NoneOlder(ranked, d + 1, d + k);
    NoneNewer(ranked);
    assert Staleness(ranked[d]) >= Staleness(ranked[d+1]);
    KeptReaches(ranked[d], others, ranked, c, ranked[d+1].timestamp, t);
  }

  lemma ReplacedCase(ranked: seq<Event>, d: nat, k: nat, c: Event, t: int)
    requires Distinct(ranked) && Descending(Staleness, ranked) && 1 <= k < |ranked| - d
    requires c !in ranked[d+1..d+k]
    requires k == 1 || ranked[d+1].timestamp == NewestBut(ranked, c).timestamp
    ensures Reaches([c] + ranked[d+1..d+k], ranked, k, c, t)
  {
    var others := ranked[d+1..d+k];
    WindowApart(ranked, d + 1, d + k);
    NoneOlder(ranked, d + 1, d + k);
    NoneNewerBut(ranked, c);
    JoinDistinct(c, others);
    ReplacedReaches(others, ranked, c, ranked[d+1].timestamp, t);
  }

  /** One survivor too many, and the newest of them is the preferred one: all but the oldest are shown. */
  lemma CompleteCase(ranked: seq<Event>, d: nat, k: nat, t: int)
    requires Distinct(ranked) && Descending(Staleness, ranked) && k >= 1 && d + k == |ranked| - 1
    ensures Reaches([ranked[d+k]] + ranked[d+1..d+k], ranked, k, ranked[d+k], t)
  {
    var c, others := ranked[d+k], ranked[d+1..d+k];
    WindowApart(ranked, d + 1, d + k);
    JoinDistinct(c, others);
    NoneOlder(ranked, d, |ranked|);
    FrontOrder(ranked, d + 1);
    NoneNewer(ranked[..d+1]);
    assert ranked == ranked[..d+1] + others + [c];
    assert ranked[d..] == [ranked[d]] + others + [c];
    CompleteReaches(ranked[d], others, ranked, c, t);
  }

  lemma FreshestIfNothingFresher(pool: seq<Event>, k: nat, d: nat, ranked: seq<Event>, preferred: seq<string>,
                                 c: Event, rival: seq<Event>)
    requires Heads(pool, ranked) && Descending(Staleness, ranked) && 1 <= k < |ranked| - d
    requires NewestOf(pool, preferred) == Some(c) && Contender(pool, k, preferred, rival)
    requires NothingFresher(ranked, d, k, preferred, c)
    ensures AsFresh(Injected(ranked, d, k, preferred, c), rival)
  {
    var digest := Injected(ranked, d, k, preferred, c);
    HeadsAmong(pool, ranked, ranked);
    NewestOfFacts(pool, preferred);
    forall t
      ensures |AtLeast(Elems(rival), t)| <= |AtLeast(Elems(digest), t)|
    {
      ContenderAtMost(pool, ranked, k, preferred, rival, t);
      InjectedReaches(ranked, d, k, preferred, c, t);
    }
    CutoffsToPositions(digest, rival);
  }

  lemma InjectedReaches(ranked: seq<Event>, d: nat, k: nat, preferred: seq<string>, c: Event, t: int)
    requires Distinct(ranked) && Descending(Staleness, ranked) && 1 <= k < |ranked| - d
    requires c.sourceID in preferred && NothingFresher(ranked, d, k, preferred, c)
    ensures Reaches(Injected(ranked, d, k, preferred, c), ranked, k, c, t)
  {
    if PreferredPresent(ranked[d..d+k], preferred) {
      KeptCase(ranked, d, k, c, t);
    } else {
      WindowOrder(ranked, d, k);
      assert c !in ranked[d..d+k];
      if ranked[|ranked|-1] == c && d + k == |ranked| - 1 {
        CompleteCase(ranked, d, k, t);
      } else {
        ReplacedCase(ranked, d, k, c, t);
      }
    }
  }

  // ---- Otherwise one exchange gives a fresher contender ----

  /** What the exchange needs to know of the heads. */
  ghost predicate OnePerSource(pool: seq<Event>, ranked: seq<Event>) {
    && (forall e :: e in ranked ==> e in pool)
    && forall d, e :: d in ranked && e in ranked && d.sourceID == e.sourceID ==> d == e
  }

  lemma HeadsOnePerSource(pool: seq<Event>, heads: seq<Event>)
    requires Heads(pool, heads)
    ensures OnePerSource(pool, heads)
  {
    HeadsFacts(pool, heads);
  }

  ghost predicate Beaten(pool: seq<Event>, preferred: seq<string>, digest: seq<Event>) {
    exists rival :: Contender(pool, |digest|, preferred, rival) && !AsFresh(digest, rival)
  }

  lemma FresherSwap(pool: seq<Event>, ranked: seq<Event>, preferred: seq<string>, digest: seq<Event>, j: nat, x: Event)
    requires OnePerSource(pool, ranked) && Distinct(digest) && forall e :: e in digest ==> e in ranked
    requires x in ranked && x !in digest && j < |digest| && x.timestamp > digest[j].timestamp
    requires PreferredPresent(digest[j := x], preferred)
    ensures Beaten(pool, preferred, digest)
  {
    var rival := digest[j := x];
    var w := (e: Event) => e.timestamp as real;
    assert Monotone(w);
    SumOfUpdate(w, digest, j, x);
    if AsFresh(digest, rival) { AsFreshTotals(w, digest, rival); }
    ElemsOfUpdate(digest, j, x);
    assert forall e :: e in rival ==> e in Elems(rival);
    assert Distinct(rival);
    HeadsUniqueSources(pool, ranked, rival);
    UniqueSourcesCardinality(rival);
  }

  lemma HeadsUniqueSources(pool: seq<Event>, ranked: seq<Event>, some: seq<Event>)
    requires OnePerSource(pool, ranked) && Distinct(some) && forall e :: e in some ==> e in ranked
    ensures UniqueSources(some)
  {
    forall i, j | 0 <= i < j < |some|
      ensures some[i].sourceID != some[j].sourceID
    {
      assert some[i] in ranked && some[j] in ranked;
    }
  }

  /** No replacement was made: exchange the oldest, or the one after it, for c or the newest head. */
  lemma KeptBeaten(pool: seq<Event>, k: nat, d: nat, ranked: seq<Event>, preferred: seq<string>, c: Event)
    requires OnePerSource(pool, ranked) && Descending(Staleness, ranked) && Distinct(ranked) && 1 <= k < |ranked| - d
    requires c in ranked && c.sourceID in preferred
    requires forall e :: e in ranked && e.sourceID in preferred ==> e.timestamp <= c.timestamp
    requires PreferredPresent(ranked[d..d+k], preferred) && !NothingFresher(ranked, d, k, preferred, c)
    ensures Beaten(pool, preferred, ranked[d..d+k])
  {
    WindowOrder(ranked, d, k);
    WindowApart(ranked, d, d + k);
    HeadsInWindow(ranked, d, k);
    KeptFails(ranked, d, k, preferred, c);
    KeptSwap(pool, ranked, preferred, ranked[d], ranked[d+1..d+k], ranked[|ranked|-1], c);
  }

  lemma KeptSwap(pool: seq<Event>, ranked: seq<Event>, preferred: seq<string>, oldest: Event, others: seq<Event>,
                 last: Event, c: Event)
    requires OnePerSource(pool, ranked) && Distinct([oldest] + others)
    requires oldest in ranked && forall e :: e in others ==> e in ranked
    requires last in ranked && last !in [oldest] + others && c in ranked && c.sourceID in preferred
    requires PreferredPresent([oldest] + others, preferred)
    requires PreferredPresent(others, preferred) ==> oldest.timestamp < last.timestamp
    requires PreferredPresent(others, preferred) || c.timestamp > oldest.timestamp
      || (|others| > 0 && others[0].timestamp < last.timestamp)
    ensures Beaten(pool, preferred, [oldest] + others)
  {
    if PreferredPresent(others, preferred) {
      SwapOldest(pool, ranked, preferred, oldest, others, last);
    } else {
      OldestPreferred(oldest, others, preferred, c);
      if c.timestamp > oldest.timestamp {
        SwapOldest(pool, ranked, preferred, oldest, others, c);
      } else {
        SwapSecond(pool, ranked, preferred, oldest, others, last);
      }
    }
  }

  /** What the failing condition says of the timestamps. */
  lemma KeptFails(ranked: seq<Event>, d: nat, k: nat, preferred: seq<string>, c: Event)
    requires Descending(Staleness, ranked) && 1 <= k < |ranked| - d && c in ranked
    requires forall e :: e in ranked && e.sourceID in preferred ==> e.timestamp <= c.timestamp
    requires PreferredPresent(ranked[d..d+k], preferred) && !NothingFresher(ranked, d, k, preferred, c)
    ensures PreferredPresent(ranked[d+1..d+k], preferred) ==> ranked[d].timestamp < ranked[|ranked|-1].timestamp
    ensures PreferredPresent(ranked[d+1..d+k], preferred) || c.timestamp > ranked[d].timestamp
      || (k > 1 && ranked[d+1].timestamp < ranked[|ranked|-1].timestamp)
  {
    if PreferredPresent(ranked[d+1..d+k], preferred) {
      NewerPreferred(ranked, d, k, preferred, c);
    } else {
      var p :| p in ranked[d..d+k] && p.sourceID in preferred;
      NoneOlder(ranked, d, d + k);
      assert p in ranked;
      NoneNewer(ranked);
    }
  }

  lemma HeadsInWindow(ranked: seq<Event>, d: nat, k: nat)
    requires 1 <= k < |ranked| - d
    ensures ranked[d] in ranked && ranked[d+1] in ranked && ranked[|ranked|-1] in ranked
    ensures k > 1 ==> |ranked[d+1..d+k]| > 0 && ranked[d+1..d+k][0] == ranked[d+1]
    ensures forall e :: e in ranked[d+1..d+k] ==> e in ranked
  {
  }

  lemma OldestPreferred(oldest: Event, others: seq<Event>, preferred: seq<string>, c: Event)
    requires PreferredPresent([oldest] + others, preferred) && !PreferredPresent(others, preferred)
    requires c.sourceID in preferred
    ensures oldest.sourceID in preferred && c !in others
  {
  }

  lemma NewerPreferred(ranked: seq<Event>, d: nat, k: nat, preferred: seq<string>, c: Event)
    requires Descending(Staleness, ranked) && 1 <= k < |ranked| - d && c in ranked
    requires forall e :: e in ranked && e.sourceID in preferred ==> e.timestamp <= c.timestamp
    requires PreferredPresent(ranked[d+1..d+k], preferred)
    requires c.timestamp != ranked[d].timestamp || ranked[d+1].timestamp != ranked[|ranked|-1].timestamp
    ensures ranked[d].timestamp < ranked[|ranked|-1].timestamp
  {
    var p :| p in ranked[d+1..d+k] && p.sourceID in preferred;
    NoneOlder(ranked, d + 1, d + k);
    NoneNewer(ranked);
    assert Staleness(ranked[d]) >= Staleness(ranked[d+1]);
  }

  /** Exchanging the first event for a newer head outside, a preferred event staying or coming in. */
  lemma SwapOldest(pool: seq<Event>, ranked: seq<Event>, preferred: seq<string>, first: Event, others: seq<Event>,
                   x: Event)
    requires OnePerSource(pool, ranked) && Distinct([first] + others)
    requires first in ranked && forall e :: e in others ==> e in ranked
    requires x in ranked && x !in [first] + others && x.timestamp > first.timestamp
    requires x.sourceID in preferred || PreferredPresent(others, preferred)
    ensures Beaten(pool, preferred, [first] + others)
  {
    assert ([first] + others)[0 := x] == [x] + others;
    if PreferredPresent(others, preferred) {
      var p :| p in others && p.sourceID in preferred;
      assert p in [x] + others;
    } else {
      assert x in [x] + others;
    }
    FresherSwap(pool, ranked, preferred, [first] + others, 0, x);
  }

  /** Exchanging the second event for a newer head outside, the first being preferred. */
  lemma SwapSecond(pool: seq<Event>, ranked: seq<Event>, preferred: seq<string>, first: Event, others: seq<Event>,
                   x: Event)
    requires OnePerSource(pool, ranked) && Distinct([first] + others)
    requires first in ranked && first.sourceID in preferred && forall e :: e in others ==> e in ranked
    requires |others| > 0 && x in ranked && x !in [first] + others && x.timestamp > others[0].timestamp
    ensures Beaten(pool, preferred, [first] + others)
  {
    var digest := [first] + others;
    assert digest[1] == others[0];
    assert digest[1 := x][0] == first;
    FresherSwap(pool, ranked, preferred, digest, 1, x);
  }

  /** The preferred event was brought in: exchange the oldest of the others for the newest head besides it. */
  lemma ReplacedBeaten(pool: seq<Event>, k: nat, d: nat, ranked: seq<Event>, preferred: seq<string>, c: Event)
    requires OnePerSource(pool, ranked) && Descending(Staleness, ranked) && Distinct(ranked) && 1 <= k < |ranked| - d
    requires c in ranked && c.sourceID in preferred
    requires !PreferredPresent(ranked[d..d+k], preferred) && !NothingFresher(ranked, d, k, preferred, c)
    ensures Beaten(pool, preferred, [c] + ranked[d+1..d+k])
  {
    var others := ranked[d+1..d+k];
    WindowOrder(ranked, d, k);
    WindowApart(ranked, d + 1, d + k);
    assert c !in ranked[d..d+k];
    JoinDistinct(c, others);
    NewestButOutside(ranked, d, k, c);
    NoneNewerBut(ranked, c);
    assert others[0] == ranked[d+1] && others[0] in others;
    SwapSecond(pool, ranked, preferred, c, others, NewestBut(ranked, c));
  }

  lemma NewestButOutside(ranked: seq<Event>, d: nat, k: nat, c: Event)
    requires Distinct(ranked) && 1 < k < |ranked| - d && !(ranked[|ranked|-1] == c && d + k == |ranked| - 1)
    ensures NewestBut(ranked, c) in ranked && NewestBut(ranked, c) != c
    ensures NewestBut(ranked, c) !in ranked[d+1..d+k]
  {
    WindowApart(ranked, d + 1, d + k);
  }

  /**
   * Exactly when strategy 6 is the freshest digest that its size, the floor and the preference allow: the size
   * leaves room for every survivor, or no preferred event is left, or nothing fresher was passed over.
   */
  lemma Strategy6OptimalExactly(pool: seq<Event>, k: nat, toDrop: nat, ranked: seq<Event>, preferred: seq<string>)
    requires Consistent(pool) && Heads(pool, ranked) && Descending(Staleness, ranked)
    requires toDrop <= |ranked| && k >= 1
    ensures
      var m, base := |ranked| - toDrop, CoreDigest(pool, k, toDrop, ranked);
      (forall rival :: Rival(pool, |base|, Min(k, m), rival) && PreferredPresent(rival, preferred) ==>
         AsFresh(InjectPreferred(base, pool, preferred), rival))
      <==> (k >= m || !PreferredPresent(pool, preferred)
            || (NewestOf(pool, preferred).Some?
                && NothingFresher(ranked, toDrop, k, preferred, NewestOf(pool, preferred).value)))
  {
    var m, base := |ranked| - toDrop, CoreDigest(pool, k, toDrop, ranked);
    if k >= m {
      forall rival | Rival(pool, |base|, m, rival) && PreferredPresent(rival, preferred)
        ensures AsFresh(InjectPreferred(base, pool, preferred), rival)
      {
        Strategy6Optimal(pool, k, toDrop, ranked, preferred, rival);
      }
    } else if PreferredPresent(pool, preferred) {
      TruncatedCore(pool, k, toDrop, ranked);
      InjectedCore(pool, k, toDrop, ranked, preferred);
      var c := NewestOf(pool, preferred).value;
      TruncatedExactly(pool, k, toDrop, ranked, preferred, c);
    } else {
      forall rival | Rival(pool, |base|, k, rival)
        ensures !PreferredPresent(rival, preferred)
      {
      }
    }
  }

  lemma TruncatedExactly(pool: seq<Event>, k: nat, d: nat, ranked: seq<Event>, preferred: seq<string>, c: Event)
    requires Heads(pool, ranked) && Descending(Staleness, ranked) && 1 <= k < |ranked| - d
    requires NewestOf(pool, preferred) == Some(c)
    ensures |Injected(ranked, d, k, preferred, c)| == k
    ensures NothingFresher(ranked, d, k, preferred, c) ==>
      forall rival :: Contender(pool, k, preferred, rival) ==> AsFresh(Injected(ranked, d, k, preferred, c), rival)
    ensures !NothingFresher(ranked, d, k, preferred, c) ==>
      exists rival :: Contender(pool, k, preferred, rival) && !AsFresh(Injected(ranked, d, k, preferred, c), rival)
  {
    if NothingFresher(ranked, d, k, preferred, c) {
      forall rival | Contender(pool, k, preferred, rival)
        ensures AsFresh(Injected(ranked, d, k, preferred, c), rival)
      {
        FreshestIfNothingFresher(pool, k, d, ranked, preferred, c, rival);
      }
    } else {
      HeadsAmong(pool, ranked, ranked);
      HeadsOnePerSource(pool, ranked);
      NewestIsHead(pool, ranked, preferred);
      NewestOfFacts(pool, preferred);
      if PreferredPresent(ranked[d..d+k], preferred) {
        KeptBeaten(pool, k, d, ranked, preferred, c);
      } else {
        ReplacedBeaten(pool, k, d, ranked, preferred, c);
      }
    }
  }
}
