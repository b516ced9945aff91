/** What the six selection strategies compute, as functions and relations on event sequences. */
module Digests {
  import opened Wrappers
  import opened Lists
  import opened Sorting
  import opened Canonical

  const LATEST := 1
  const LATEST_PER_SOURCE := 2
  const HYBRID := 3
  const GUARANTEED_DIVERSITY := 4
  const GUARANTEED_DIVERSITY_RANDOM := 5
  const PREFERRED_SOURCES := 6

  function Stamp(e: Event): int { e.timestamp }

  function Staleness(e: Event): int { -e.timestamp }

  function NewestFirst(s: seq<Event>): (r: seq<Event>)
    ensures |r| == |s|
  {
    StableSortElems(Stamp, s);
    StableSort(Stamp, s)
  }

  function OldestFirst(s: seq<Event>): seq<Event> { StableSort(Staleness, s) }

  function IDs(s: seq<Event>): set<string> { set e | e in s :: e.eventID }

  function Sources(s: seq<Event>): set<string> { set e | e in s :: e.sourceID }

  ghost predicate UniqueIDs(s: seq<Event>) {
    forall i, j :: 0 <= i < j < |s| ==> s[i].eventID != s[j].eventID
  }

  ghost predicate UniqueSources(s: seq<Event>) {
    forall i, j :: 0 <= i < j < |s| ==> s[i].sourceID != s[j].sourceID
  }

  /** Deliveries that share an EventID are the same event; the consumer may deliver one event twice. */
  ghost predicate Consistent(s: seq<Event>) {
    forall d, e :: d in s && e in s && d.eventID == e.eventID ==> d == e
  }

  /** An EventID belongs to one source, even when the input repeats an event. */
  ghost predicate IDsDetermineSource(s: seq<Event>) {
    forall d, e :: d in s && e in s && d.eventID == e.eventID ==> d.sourceID == e.sourceID
  }

  function Unsuppressed(events: seq<Event>, suppress: set<string>): seq<Event> {
    if |events| == 0 then []
    else
      var e := events[|events|-1];
      Unsuppressed(events[..|events|-1], suppress) + (if e.eventID in suppress then [] else [e])
  }

  /** Each source's newest event; the first one wins a tie. */
  function LatestMap(events: seq<Event>): map<string, Event> {
    if |events| == 0 then map[]
    else
      var e, m := events[|events|-1], LatestMap(events[..|events|-1]);
      if e.sourceID !in m || e.timestamp > m[e.sourceID].timestamp then m[e.sourceID := e] else m
  }

  /** `values` lists, in some order, the entries of a map keyed by source that were visited so far. */
  ghost predicate Visited(m: map<string, Event>, visited: set<string>, values: seq<Event>) {
    && Sources(values) == visited
    && UniqueSources(values)
    && forall h :: h in values ==> h.sourceID in m && m[h.sourceID] == h
  }

  ghost predicate Enumerates(m: map<string, Event>, heads: seq<Event>) {
    Visited(m, m.Keys, heads)
  }

  /** The source-latest events of `events` in an order that Go's map iteration or a shuffle may produce. */
  ghost predicate Heads(events: seq<Event>, heads: seq<Event>) {
    Enumerates(LatestMap(events), heads)
  }

  /** Appends candidates whose ID is not yet present until the digest holds k events. */
  function Fill(kept: seq<Event>, candidates: seq<Event>, k: nat): seq<Event>
    decreases |candidates|
  {
    if |candidates| == 0 || |kept| >= k then kept
    else if candidates[0].eventID in IDs(kept) then Fill(kept, candidates[1..], k)
    else Fill(kept + [candidates[0]], candidates[1..], k)
  }

  function Clamp(percent: real): real {
    if percent < 0.0 then 0.0 else if percent > 100.0 then 100.0 else percent
  }

  /** What one float64 operation makes of its exact result. */
  type Rounding = real -> real

  /** Rounding as IEEE 754 has it, on counts up to n: never against the order, and exact on whole numbers. */
  ghost predicate RoundsTo(round: Rounding, n: nat) {
    && (forall x, y :: x <= y ==> round(x) <= round(y))
    && forall i: nat :: i <= n ==> Keeps(round, i)
  }

  ghost predicate Keeps(round: Rounding, i: nat) { round(i as real) == i as real }

  /** The share of n sources that the diversity percentage does not ask for, rounded after each operation. */
  function Share(n: nat, percent: real, round: Rounding): real {
    round(n as real * round(1.0 - round(Clamp(percent) / 100.0)))
  }

  /** How many source-latest events the diversity floor gives up. */
  function ToDrop(nSources: nat, percent: real, round: Rounding): (d: nat)
    ensures d <= nSources
  {
    var d := Share(nSources, percent, round).Floor;
    if d < 0 then 0 else if d > nSources then nSources else d
  }

  /** The loop over survivors tests the size only after appending, so it keeps one even when k is 0. */
  function Survivors(ranked: seq<Event>, toDrop: nat, k: nat): seq<Event>
    requires toDrop <= |ranked|
  {
    Take(ranked[toDrop..], Max(k, 1))
  }

  function CoreDigest(events: seq<Event>, k: nat, toDrop: nat, ranked: seq<Event>): seq<Event>
    requires toDrop <= |ranked|
  {
    Fill(Survivors(ranked, toDrop, k), NewestFirst(events), k)
  }

  /** The newest event of a preferred source; the first one wins a tie. */
  function NewestOf(events: seq<Event>, preferred: seq<string>): Option<Event> {
    if |events| == 0 then None
    else
      var e, best := events[|events|-1], NewestOf(events[..|events|-1], preferred);
      if e.sourceID in preferred && (best.None? || e.timestamp > best.value.timestamp) then Some(e) else best
  }

  /** The position of the oldest event; the first one wins a tie. */
  function OldestIndex(s: seq<Event>): (i: nat)
    requires |s| > 0
    ensures i < |s|
    ensures forall j :: 0 <= j < |s| ==> s[i].timestamp <= s[j].timestamp
  {
    if |s| == 1 then 0
    else
      var i := OldestIndex(s[..|s|-1]);
      if s[|s|-1].timestamp < s[i].timestamp then |s| - 1 else i
  }

  function InjectPreferred(base: seq<Event>, events: seq<Event>, preferred: seq<string>): seq<Event> {
    if |preferred| == 0 || |base| == 0 || (exists e :: e in base && e.sourceID in preferred) then base
    else match NewestOf(events, preferred)
      case None => base
      case Some(candidate) => base[OldestIndex(base) := candidate]
  }

  /** One call of the curation engine, and the rounding of the arithmetic that it runs on. */
  datatype Request = Request(strategy: int, events: seq<Event>, k: int, diversityPercent: real,
                             preferredSources: seq<string>, suppressionSet: set<string>, now: int, round: Rounding)

  datatype Digest = Digest(selected: seq<Event>, strategy: int, freshness: real, diversity: real, redundancy: real)

  ghost predicate CorePick(pool: seq<Event>, k: nat, percent: real, round: Rounding, oldestDropped: bool,
                           picked: seq<Event>)
  {
    exists ranked ::
      && Heads(pool, ranked)
      && (oldestDropped ==> Descending(Staleness, ranked))
      && picked == CoreDigest(pool, k, ToDrop(|ranked|, percent, round), ranked)
  }

  ghost predicate PreferredPick(pool: seq<Event>, k: nat, percent: real, round: Rounding, preferred: seq<string>,
                                picked: seq<Event>)
  {
    exists base :: CorePick(pool, k, percent, round, true, base) && picked == InjectPreferred(base, pool, preferred)
  }

  /** The selections that a strategy may return from the unsuppressed pool, before the final sort. */
  ghost predicate Picks(req: Request, pool: seq<Event>, picked: seq<Event>)
    requires req.k >= 0
  {
    match req.strategy
    case 1 => picked == Take(NewestFirst(pool), req.k)
    case 2 => exists heads :: Heads(pool, heads) && picked == Take(NewestFirst(heads), req.k)
    case 3 => exists heads :: Heads(pool, heads) && picked == Fill(Take(heads, req.k), NewestFirst(pool), req.k)
    case 4 => CorePick(pool, req.k, req.diversityPercent, req.round, true, picked)
    case 5 => CorePick(pool, req.k, req.diversityPercent, req.round, false, picked)
    case 6 => PreferredPick(pool, req.k, req.diversityPercent, req.round, req.preferredSources, picked)
    case _ => false
  }

  function MaxAge(all: seq<Event>, ref: int): nat {
    if |all| == 0 then 0
    else Max(MaxAge(all[..|all|-1], ref), all[|all|-1].AgeAt(ref))
  }

  function Freshness(maxAge: nat, ref: int): Event -> real
    requires maxAge > 0
  {
    (e: Event) => 1.0 - e.AgeAt(ref) as real / maxAge as real
  }

  ghost function FreshnessScore(selected: seq<Event>, all: seq<Event>, ref: int): real {
    if |selected| == 0 || |all| == 0 then 0.0
    else if MaxAge(all, ref) == 0 then 1.0
    else SumOf(Freshness(MaxAge(all, ref), ref), selected) / |selected| as real
  }

  function DiversityScore(selected: seq<Event>, all: seq<Event>): real {
    if |Sources(all)| == 0 then 0.0 else |Sources(selected)| as real / |Sources(all)| as real
  }

  function Ratio(removed: nat, total: nat): real {
    if total == 0 then 0.0 else removed as real / total as real
  }

  ghost function Summary(req: Request, clock: int, picked: seq<Event>): Digest {
    var selected := NewestFirst(picked);
    var removed := |req.events| - |Unsuppressed(req.events, req.suppressionSet)|;
    var ref := if req.now == ZERO_TIME then clock else req.now;
    Digest(selected, req.strategy,
           FreshnessScore(selected, req.events, ref),
           DiversityScore(selected, req.events),
           Ratio(Max(0, removed), |req.events|))
  }

  /** The unsuppressed events, from which every strategy selects. */
  ghost function Pool(req: Request): seq<Event> { Unsuppressed(req.events, req.suppressionSet) }

  ghost predicate DigestOutcome(req: Request, clock: int, d: Digest)
    requires req.k >= 0
  {
    exists picked :: Picks(req, Pool(req), picked) && d == Summary(req, clock, picked)
  }

  /** Every result that `Select` may return, over all map orders and shuffles. */
  ghost predicate SelectOutcome(req: Request, clock: int, res: Result<Digest>) {
    if req.k < 0 then res == Err("curation: K must be non-negative")
    else if !(LATEST <= req.strategy <= PREFERRED_SOURCES) then res == Err("curation: unknown strategy")
    else res.Ok? && DigestOutcome(req, clock, res.value)
  }
}
