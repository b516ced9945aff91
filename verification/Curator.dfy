/** The curator process: a window buffer, a flush that emits a digest, and a bounded suppression set. */
module Curator {
  import opened Wrappers
  import opened Lists
  import opened Canonical
  import opened Digests
  import opened DigestFacts
  import opened StrategyTheorems
  import Curation

  const SOFT_LIMIT: nat := 10000

  /** One flush: the IDs that its digest emitted, and those that pruning then forgot. */
  datatype Flush = Flush(emitted: set<string>, pruned: set<string>)

  /** The IDs emitted and not yet forgotten. */
  ghost function Remembered(log: seq<Flush>): set<string> {
    if |log| == 0 then {}
    else Remembered(log[..|log|-1]) + log[|log|-1].emitted - log[|log|-1].pruned
  }

  /** Flush n avoided what was remembered when it was made, and left a bounded set. */
  ghost predicate WellBehavedAt(log: seq<Flush>, k: int, n: nat)
    requires n < |log|
  {
    && log[n].emitted !! Remembered(log[..n])
    && |Remembered(log[..n+1])| <= Max(SOFT_LIMIT, k)
  }

  ghost predicate WellBehaved(log: seq<Flush>, k: int) {
    forall n :: 0 <= n < |log| ==> WellBehavedAt(log, k, n)
  }

  /** How many entries `pruneSuppression` evicts. */
  function Evictions(size: nat, softLimit: nat): nat { if size <= softLimit then 0 else size / 2 }

  /** Deletes arbitrary entries, in whatever order the map is ranged over, until half are gone. */
  method PruneSuppression(entries: set<string>, softLimit: nat) returns (kept: set<string>)
    ensures kept <= entries
    ensures |kept| == |entries| - Evictions(|entries|, softLimit)
    ensures |entries| <= softLimit ==> kept == entries
    ensures |entries| > softLimit ==> |entries| <= 2 * |kept| <= |entries| + 1
  {
    kept := entries;
    if |kept| <= softLimit {
      return;
    }
    var drop := |kept| / 2;
    while drop > 0
      invariant kept <= entries && 0 <= drop <= |entries| / 2
      invariant |kept| == |entries| - |entries| / 2 + drop
    {
      var id :| id in kept;
      kept := kept - {id};
      drop := drop - 1;
    }
  }

  lemma CoreDigestSize(pool: seq<Event>, k: nat, toDrop: nat, ranked: seq<Event>)
    requires toDrop <= |ranked|
    ensures |CoreDigest(pool, k, toDrop, ranked)| <= Max(k, 1)
  {
    FillExtends(Survivors(ranked, toDrop, k), NewestFirst(pool), k);
  }

  lemma CoreSize(pool: seq<Event>, k: nat, percent: real, round: Rounding, oldest: bool, picked: seq<Event>)
    requires CorePick(pool, k, percent, round, oldest, picked)
    ensures |picked| <= Max(k, 1)
  {
    var ranked :| Heads(pool, ranked) && picked == CoreDigest(pool, k, ToDrop(|ranked|, percent, round), ranked);
    CoreDigestSize(pool, k, ToDrop(|ranked|, percent, round), ranked);
  }

  lemma HybridSize(pool: seq<Event>, heads: seq<Event>, k: nat)
    ensures |Fill(Take(heads, k), NewestFirst(pool), k)| <= k
  {
    FillExtends(Take(heads, k), NewestFirst(pool), k);
  }

  lemma PicksSize(req: Request, picked: seq<Event>)
    requires req.k >= 0 && Picks(req, Pool(req), picked)
    ensures |picked| <= Max(req.k, 1)
  {
    var pool, k := Pool(req), req.k;
    if req.strategy == HYBRID {
      var heads :| Heads(pool, heads) && picked == Fill(Take(heads, k), NewestFirst(pool), k);
      HybridSize(pool, heads, k);
    } else if req.strategy == PREFERRED_SOURCES {
      var base :| CorePick(pool, k, req.diversityPercent, req.round, true, base)
        && picked == InjectPreferred(base, pool, req.preferredSources);
      CoreSize(pool, k, req.diversityPercent, req.round, true, base);
    } else if req.strategy == GUARANTEED_DIVERSITY || req.strategy == GUARANTEED_DIVERSITY_RANDOM {
      CoreSize(pool, k, req.diversityPercent, req.round, req.strategy == GUARANTEED_DIVERSITY, picked);
    }
  }

  /** A digest never has more than max(K, 1) events. */
  lemma DigestSize(req: Request, clock: int, d: Digest)
    requires SelectOutcome(req, clock, Ok(d))
    ensures req.k >= 0 && |d.selected| <= Max(req.k, 1)
  {
    SelectedFrom(req, clock, d);
    var picked :| Picks(req, Pool(req), picked) && IsSummary(req, clock, picked, d);
    PicksSize(req, picked);
  }

  lemma IDsBounded(s: seq<Event>)
    ensures |IDs(s)| <= |s|
  {
    UniqueIDsCardinality(s);
  }

  class Process {
    const strategy: int
    const diversity: real
    const k: int
    const round: Rounding
    var buf: seq<Event>
    var suppression: set<string>
    ghost var log: seq<Flush>

    ghost predicate Valid()
      reads this
    {
      suppression == Remembered(log) && WellBehaved(log, k) && |suppression| <= Max(SOFT_LIMIT, k)
    }

    constructor (strategy: int, diversity: real, k: int, round: Rounding)
      ensures Valid() && buf == [] && log == []
      ensures this.strategy == strategy && this.diversity == diversity && this.k == k && this.round == round
    {
      this.strategy, this.diversity, this.k, this.round := strategy, diversity, k, round;
      buf, suppression, log := [], {}, [];
    }

    /** One decoded message: invalid events are dropped. */
    method Receive(e: Event)
      requires Valid()
      modifies this`buf
      ensures Valid()
      ensures buf == old(buf) + (if e.Validate().None? then [e] else [])
    {
      if e.Validate().None? {
        buf := buf + [e];
      }
    }

    function RequestOf(now: int): Request
      reads this
    {
      Request(strategy, buf, k, diversity, [], suppression, now, round)
    }

    /** A window tick. An empty window emits nothing; a selection error drops the window. */
    method Tick(now: int) returns (emitted: Option<Digest>)
      requires Valid()
      modifies this
      ensures Valid()
      ensures buf == []
      ensures emitted.None? ==> suppression == old(suppression) && log == old(log)
      ensures emitted.Some? ==>
        && old(|buf|) > 0
        && (var req := Request(strategy, old(buf), k, diversity, [], old(suppression), now, round);
            SelectOutcome(req, now, Ok(emitted.value)))
        && (var full := old(suppression) + IDs(emitted.value.selected);
            && suppression <= full
            && (|full| <= 10000 ==> suppression == full)
            && (|full| > 10000 ==> |full| <= 2 * |suppression| <= |full| + 1))
        && (var ids := IDs(emitted.value.selected);
            log == old(log) + [Flush(ids, old(suppression) + ids - suppression)])
      ensures emitted.None? ==> old(|buf|) == 0 || k < 0 || !(LATEST <= strategy <= PREFERRED_SOURCES)
    {
      if |buf| == 0 {
        return None;
      }
      var req := RequestOf(now);
      var res := Curation.Select(req, now);
      if res.Err? {
        buf := [];
        return None;
      }
      var selected := res.value.selected;
      var full := Remember(suppression, selected);
      suppression := PruneSuppression(full, SOFT_LIMIT);
      FlushKeepsLog(log, k, req, now, res.value, suppression);
      log := log + [Flush(IDs(selected), full - suppression)];
      buf := [];
      emitted := Some(res.value);
    }
  }

  method Remember(entries: set<string>, selected: seq<Event>) returns (full: set<string>)
    ensures full == entries + IDs(selected)
  {
    full := entries;
    for i := 0 to |selected|
      invariant full == entries + IDs(selected[..i])
    {
      assert selected[..i+1] == selected[..i] + [selected[i]];
      Curation.SourcesAppend(selected[..i], selected[i]);
      full := full + {selected[i].eventID};
    }
    assert selected[..|selected|] == selected;
  }

  /** Pruning brings the set back under the bound, since a digest adds at most max(K, 1) entries. */
  lemma PrunedSize(remembered: set<string>, added: set<string>, kept: set<string>, k: int)
    requires |remembered| <= Max(SOFT_LIMIT, k) && |added| <= Max(k, 1)
    requires |kept| == |remembered + added| - Evictions(|remembered + added|, SOFT_LIMIT)
    ensures |kept| <= Max(SOFT_LIMIT, k)
  {
    assert |remembered + added| <= |remembered| + |added|;
  }

  lemma LogAfter(log: seq<Flush>, k: int, f: Flush)
    requires WellBehaved(log, k) && f.emitted !! Remembered(log)
    requires |Remembered(log) + f.emitted - f.pruned| <= Max(SOFT_LIMIT, k)
    ensures WellBehaved(log + [f], k) && Remembered(log + [f]) == Remembered(log) + f.emitted - f.pruned
  {
    var longer := log + [f];
    assert longer[..|log|] == log && longer[..|longer|] == longer;
    forall n | 0 <= n < |log|
      ensures WellBehavedAt(longer, k, n)
    {
      BehavedBefore(log, k, f, n);
    }
  }

  lemma BehavedBefore(log: seq<Flush>, k: int, f: Flush, n: nat)
    requires n < |log| && WellBehavedAt(log, k, n)
    ensures WellBehavedAt(log + [f], k, n)
  {
    var longer := log + [f];
    assert longer[n] == log[n];
    assert longer[..n] == log[..n] && longer[..n+1] == log[..n+1];
  }

  lemma FlushKeepsLog(log: seq<Flush>, k: int, req: Request, now: int, d: Digest, kept: set<string>)
    requires WellBehaved(log, k) && |Remembered(log)| <= Max(SOFT_LIMIT, k)
    requires req.k == k && req.suppressionSet == Remembered(log) && SelectOutcome(req, now, Ok(d))
    requires
      var full := Remembered(log) + IDs(d.selected);
      kept <= full && |kept| == |full| - Evictions(|full|, SOFT_LIMIT)
    ensures
      var longer := log + [Flush(IDs(d.selected), Remembered(log) + IDs(d.selected) - kept)];
      WellBehaved(longer, k) && Remembered(longer) == kept && |kept| <= Max(SOFT_LIMIT, k)
  {
    var full := Remembered(log) + IDs(d.selected);
    SelectShape(req, now, d);
    DigestSize(req, now, d);
    IDsBounded(d.selected);
    PrunedSize(Remembered(log), IDs(d.selected), kept, k);
    assert full - (full - kept) == kept;
    LogAfter(log, k, Flush(IDs(d.selected), full - kept));
  }

  /** What is remembered stays remembered until some flush prunes it. */
  lemma {:induction false} RememberedUntilPruned(log: seq<Flush>, m: nat, n: nat, id: string)
    requires m < n <= |log| && id in log[m].emitted
    requires forall l :: m <= l < n ==> id !in log[l].pruned
    ensures id in Remembered(log[..n])
    decreases n
  {
    assert log[..n][..n-1] == log[..n-1];
    if n - 1 > m {
      RememberedUntilPruned(log, m, n - 1, id);
    }
  }

  /** An ID that appears in two digests was pruned in between, and after every flush the set is bounded. */
  lemma RepeatsOnlyAfterPruning(log: seq<Flush>, k: int, m: nat, n: nat, id: string)
    requires WellBehaved(log, k) && m < n < |log|
    requires id in log[m].emitted && id in log[n].emitted
    ensures exists l :: m <= l < n && id in log[l].pruned
    ensures |Remembered(log[..n])| <= Max(SOFT_LIMIT, k)
  {
    if forall l :: m <= l < n ==> id !in log[l].pruned {
      RememberedUntilPruned(log, m, n, id);
    }
    assert WellBehavedAt(log, k, n) && WellBehavedAt(log, k, n - 1);
    assert log[..(n-1)+1] == log[..n];
  }
}
