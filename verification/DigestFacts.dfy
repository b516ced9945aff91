/** Facts about the building blocks of the selectors: heads, survivors, fill. */
module DigestFacts {
  import opened Lists
  import opened Sorting
  import opened Canonical
  import opened Digests
  import Curation

  lemma UniqueIDsCardinality(s: seq<Event>)
    ensures |IDs(s)| <= |s|
    ensures UniqueIDs(s) <==> |IDs(s)| == |s|
  {
    var names := seq(|s|, i requires 0 <= i < |s| => s[i].eventID);
    assert forall i :: 0 <= i < |s| ==> names[i] == s[i].eventID;
    assert Elems(names) == IDs(s);
    DistinctCardinality(names);
    assert UniqueIDs(s) <==> Distinct(names);
  }

  lemma UniqueSourcesCardinality(s: seq<Event>)
    ensures |Sources(s)| <= |s|
    ensures UniqueSources(s) <==> |Sources(s)| == |s|
  {
    var names := seq(|s|, i requires 0 <= i < |s| => s[i].sourceID);
    assert forall i :: 0 <= i < |s| ==> names[i] == s[i].sourceID;
    assert Elems(names) == Sources(s);
    DistinctCardinality(names);
    assert UniqueSources(s) <==> Distinct(names);
  }

  /** With unique IDs an event is determined by its ID. */
  lemma UniqueIsConsistent(s: seq<Event>)
    requires UniqueIDs(s)
    ensures Consistent(s)
  {
    forall d, e | d in s && e in s && d.eventID == e.eventID
      ensures d == e
    {
      var i :| 0 <= i < |s| && s[i] == d;
      var j :| 0 <= j < |s| && s[j] == e;
    }
  }

  /** Event i is the first of the newest events of source s. */
  ghost predicate FirstNewest(events: seq<Event>, s: string, i: nat) {
    && i < |events| && events[i].sourceID == s
    && (forall j :: 0 <= j < i && events[j].sourceID == s ==> events[j].timestamp < events[i].timestamp)
    && (forall j :: i <= j < |events| && events[j].sourceID == s ==> events[j].timestamp <= events[i].timestamp)
  }

  lemma FirstNewestStays(t: seq<Event>, e: Event, s: string, i: nat)
    requires FirstNewest(t, s, i)
    ensures e.sourceID == s && e.timestamp > t[i].timestamp ==> FirstNewest(t + [e], s, |t|)
    ensures !(e.sourceID == s && e.timestamp > t[i].timestamp) ==> FirstNewest(t + [e], s, i)
  {
    var r := t + [e];
    assert forall j :: 0 <= j < |t| ==> r[j] == t[j];
    assert forall j :: 0 <= j < |t| && t[j].sourceID == s ==> t[j].timestamp <= t[i].timestamp;
  }

  /** `latestPerSource` keeps, for every source, the first of its newest events. */
  lemma {:induction false} LatestMapFirstNewest(events: seq<Event>, s: string) returns (i: nat)
    requires s in Sources(events)
    ensures s in LatestMap(events) && FirstNewest(events, s, i) && LatestMap(events)[s] == events[i]
  {
    var n := |events| - 1;
    var t, e := events[..n], events[n];
    assert events == t + [e];
    Curation.SourcesAppend(t, e);
    Curation.LatestMapKeys(t);
    if s in Sources(t) {
      i := LatestMapFirstNewest(t, s);
      FirstNewestStays(t, e, s, i);
      assert events[i] == t[i];
      if e.sourceID == s && e.timestamp > t[i].timestamp {
        i := n;
      }
    } else {
      i := n;
      forall j | 0 <= j < n
        ensures events[j].sourceID != s
      {
        assert t[j].sourceID in Sources(t);
      }
    }
  }

  /** Heads are pool events, one per source, each the newest of its source. */
  lemma HeadsFacts(pool: seq<Event>, heads: seq<Event>)
    requires Heads(pool, heads)
    ensures forall h :: h in heads ==> h in pool
    ensures |heads| == |Sources(pool)| && Sources(heads) == Sources(pool)
    ensures forall h, e :: h in heads && e in pool && h.sourceID == e.sourceID ==> e.timestamp <= h.timestamp
  {
    Curation.LatestMapKeys(pool);
    UniqueSourcesCardinality(heads);
    forall h, e | h in heads && e in pool && h.sourceID == e.sourceID
      ensures e.timestamp <= h.timestamp
    {
      var i := LatestMapFirstNewest(pool, h.sourceID);
    }
  }

  lemma HeadOf(pool: seq<Event>, heads: seq<Event>, e: Event) returns (i: nat)
    requires Heads(pool, heads) && e in pool
    ensures i < |heads| && heads[i].sourceID == e.sourceID && heads[i].timestamp >= e.timestamp
  {
    HeadsFacts(pool, heads);
    assert e.sourceID in Sources(heads);
    i :| 0 <= i < |heads| && heads[i].sourceID == e.sourceID;
    assert heads[i] in heads;
  }

  /** Fill only appends candidates, never beyond k, and never repeats an ID. */
  lemma {:induction false} FillExtends(kept: seq<Event>, candidates: seq<Event>, k: nat)
    ensures kept <= Fill(kept, candidates, k)
    ensures |Fill(kept, candidates, k)| <= Max(k, |kept|)
    ensures forall i :: |kept| <= i < |Fill(kept, candidates, k)| ==> Fill(kept, candidates, k)[i] in candidates
    ensures UniqueIDs(kept) ==> UniqueIDs(Fill(kept, candidates, k))
    decreases |candidates|
  {
    if |candidates| > 0 && |kept| < k {
      var e, rest := candidates[0], candidates[1..];
      if e.eventID in IDs(kept) {
        FillExtends(kept, rest, k);
      } else {
        assert forall i :: 0 <= i < |kept| ==> kept[i].eventID in IDs(kept);
        FillExtends(kept + [e], rest, k);
        assert (kept + [e])[|kept|] == e;
      }
    }
  }

  /** A candidate left out is either already represented by its ID, or the digest is full of newer additions. */
  lemma {:induction false} FillGreedy(kept: seq<Event>, candidates: seq<Event>, k: nat, e: Event)
    requires Descending(Stamp, candidates) && e in candidates
    ensures
      var r := Fill(kept, candidates, k);
      e.eventID in IDs(r) || (|r| >= k && forall i :: |kept| <= i < |r| ==> r[i].timestamp >= e.timestamp)
    decreases |candidates|
  {
    if |kept| < k {
      var first, rest := candidates[0], candidates[1..];
      var grown := if first.eventID in IDs(kept) then kept else kept + [first];
      Curation.SourcesAppend(kept, first);
      FillExtends(grown, rest, k);
      var r := Fill(grown, rest, k);
      assert r == Fill(kept, candidates, k);
      if e in rest {
        FillGreedy(grown, rest, k, e);
        if grown != kept {
          assert r[|kept|] == grown[|kept|] == first;
          var i :| 0 <= i < |rest| && rest[i] == e;
          assert Stamp(candidates[0]) >= Stamp(candidates[i+1]);
        }
      } else {
        assert e == first;
        assert IDs(grown) <= IDs(r) by { assert forall x :: x in grown ==> x in r; }
      }
    }
  }

  /** A digest short of k has used up every candidate ID; so its size is determined. */
  lemma FillSize(pool: seq<Event>, kept: seq<Event>, k: nat)
    requires UniqueIDs(kept) && |kept| <= k
    requires forall e :: e in kept ==> e in pool
    ensures |Fill(kept, NewestFirst(pool), k)| == Min(k, |IDs(pool)|)
    ensures forall e :: e in Fill(kept, NewestFirst(pool), k) ==> e in pool
    ensures UniqueIDs(Fill(kept, NewestFirst(pool), k))
  {
    var sorted := NewestFirst(pool);
    var r := Fill(kept, sorted, k);
    StableSortElems(Stamp, pool);
    FillExtends(kept, sorted, k);
    forall e | e in r
      ensures e in pool
    {
      var i :| 0 <= i < |r| && r[i] == e;
      if i >= |kept| { assert e in Elems(sorted); } else { assert kept[i] == e; }
    }
    UniqueIDsCardinality(r);
    assert IDs(r) <= IDs(pool);
    SubsetCardinality(IDs(r), IDs(pool));
    if |r| < k {
      forall e | e in pool
        ensures e.eventID in IDs(r)
      {
        assert e in Elems(sorted);
        FillGreedy(kept, sorted, k, e);
      }
      assert IDs(r) == IDs(pool);
    }
  }
}
