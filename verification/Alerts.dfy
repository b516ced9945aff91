/** The operator alert buffer: bounded, and deduplicated per rule and event. */
module Alerts {
  import opened Lists

  /** Nanoseconds within which a second alert of the same key is dropped. */
  const DEDUPE_WINDOW: int := 45_000_000_000

  datatype Alert = Alert(id: string, title: string, body: string, severity: string, ruleID: string, createdAt: int,
                         ref: map<string, string>)

  function DedupeKey(a: Alert): string {
    if "event_id" in a.ref && a.ref["event_id"] != "" then a.ruleID + "|evt|" + a.ref["event_id"] else a.ruleID
  }

  /** An alert that entered the buffer, and the clock reading stored for its key. */
  datatype Entry = Entry(alert: Alert, at: int)

  ghost predicate RecentlyAccepted(history: seq<Entry>, key: string, since: int) {
    exists i :: 0 <= i < |history| && DedupeKey(history[i].alert) == key && since - history[i].at < DEDUPE_WINDOW
  }

  /** What `Add` makes of the alerts accepted since the last `Clear`, in terms of that history alone. */
  ghost function Accept(history: seq<Entry>, a: Alert, since: int, now: int): seq<Entry> {
    if RecentlyAccepted(history, DedupeKey(a), since) then history else history + [Entry(a, now)]
  }

  /** Accepted alerts of one key are a window apart, in the order of acceptance. */
  ghost predicate Spaced(history: seq<Entry>) {
    forall i, j :: 0 <= i < j < |history| && DedupeKey(history[i].alert) == DedupeKey(history[j].alert) ==>
      history[j].at - history[i].at >= DEDUPE_WINDOW
  }

  lemma AcceptKeepsSpacing(history: seq<Entry>, a: Alert, since: int, now: int)
    requires Spaced(history) && since <= now
    ensures Spaced(Accept(history, a, since, now))
  {
    if !RecentlyAccepted(history, DedupeKey(a), since) {
      assert forall i :: 0 <= i < |history| && DedupeKey(history[i].alert) == DedupeKey(a) ==>
        since - history[i].at >= DEDUPE_WINDOW;
    }
  }

  /** The table of last acceptance times agrees with the history. */
  ghost predicate IsLatest(history: seq<Entry>, lastRule: map<string, int>) {
    && (forall i :: 0 <= i < |history| ==>
          DedupeKey(history[i].alert) in lastRule && history[i].at <= lastRule[DedupeKey(history[i].alert)])
    && forall key :: key in lastRule ==>
         exists i :: 0 <= i < |history| && DedupeKey(history[i].alert) == key && history[i].at == lastRule[key]
  }

  lemma LatestDecides(history: seq<Entry>, lastRule: map<string, int>, key: string, since: int)
    requires IsLatest(history, lastRule)
    ensures RecentlyAccepted(history, key, since) <==> key in lastRule && since - lastRule[key] < DEDUPE_WINDOW
  {
    if RecentlyAccepted(history, key, since) {
      var i :| 0 <= i < |history| && DedupeKey(history[i].alert) == key && since - history[i].at < DEDUPE_WINDOW;
      assert history[i].at <= lastRule[key];
    }
  }

  /** An accepted alert becomes the latest of its key, since it comes a window after the one before it. */
  lemma LatestAfter(history: seq<Entry>, lastRule: map<string, int>, a: Alert, since: int, now: int)
    requires IsLatest(history, lastRule) && since <= now
    requires !RecentlyAccepted(history, DedupeKey(a), since)
    ensures IsLatest(history + [Entry(a, now)], lastRule[DedupeKey(a) := now])
  {
    var longer, table := history + [Entry(a, now)], lastRule[DedupeKey(a) := now];
    forall i | 0 <= i < |longer|
      ensures DedupeKey(longer[i].alert) in table && longer[i].at <= table[DedupeKey(longer[i].alert)]
    {
      if i < |history| && DedupeKey(history[i].alert) == DedupeKey(a) {
        assert since - history[i].at >= DEDUPE_WINDOW;
      }
    }
    forall key | key in table
      ensures exists i :: 0 <= i < |longer| && DedupeKey(longer[i].alert) == key && longer[i].at == table[key]
    {
      if key == DedupeKey(a) {
        assert longer[|history|] == Entry(a, now);
      } else {
        var i :| 0 <= i < |history| && DedupeKey(history[i].alert) == key && history[i].at == lastRule[key];
        assert longer[i] == history[i];
      }
    }
  }

  /** The newest n elements. */
  function Last<T>(s: seq<T>, n: nat): (r: seq<T>)
    ensures |r| == Min(|s|, n) && s == s[..|s|-|r|] + r
  {
    if |s| > n then s[|s|-n..] else s
  }

  lemma LastAfter<T>(s: seq<T>, x: T, n: nat)
    requires n > 0
    ensures Last(s + [x], n) == Last(Last(s, n) + [x], n)
  {
  }

  ghost function AlertsOf(history: seq<Entry>): (s: seq<Alert>)
    ensures |s| == |history| && forall i :: 0 <= i < |history| ==> s[i] == history[i].alert
  {
    seq(|history|, i requires 0 <= i < |history| => history[i].alert)
  }

  /** Appending to the buffer and trimming it keeps it the newest part of the history. */
  lemma BufferAfter(history: seq<Entry>, a: Alert, now: int, max: nat)
    requires max > 0
    ensures Last(AlertsOf(history + [Entry(a, now)]), max) == Last(Last(AlertsOf(history), max) + [a], max)
  {
    assert AlertsOf(history + [Entry(a, now)]) == AlertsOf(history) + [a];
    LastAfter(AlertsOf(history), a, max);
  }

  /** The store's fields, in terms of the history. */
  ghost predicate Reflects(history: seq<Entry>, buf: seq<Alert>, lastRule: map<string, int>, max: nat) {
    && max > 0
    && buf == Last(AlertsOf(history), max)
    && IsLatest(history, lastRule)
    && Spaced(history)
  }

  /** The table's test decides as the history would, and an admitted alert leaves fields and history in step. */
  lemma AddReflects(history: seq<Entry>, buf: seq<Alert>, lastRule: map<string, int>, max: nat,
                    a: Alert, since: int, now: int)
    requires Reflects(history, buf, lastRule, max) && since <= now
    ensures
      var key := DedupeKey(a);
      if key in lastRule && since - lastRule[key] < DEDUPE_WINDOW then Accept(history, a, since, now) == history
      else
        && Accept(history, a, since, now) == history + [Entry(a, now)]
        && Reflects(history + [Entry(a, now)], Last(buf + [a], max), lastRule[key := now], max)
  {
    LatestDecides(history, lastRule, DedupeKey(a), since);
    if !RecentlyAccepted(history, DedupeKey(a), since) {
      AdmitReflects(history, buf, lastRule, max, a, since, now);
    }
  }

  lemma AdmitReflects(history: seq<Entry>, buf: seq<Alert>, lastRule: map<string, int>, max: nat,
                      a: Alert, since: int, now: int)
    requires Reflects(history, buf, lastRule, max) && since <= now
    requires !RecentlyAccepted(history, DedupeKey(a), since)
    ensures Reflects(history + [Entry(a, now)], Last(buf + [a], max), lastRule[DedupeKey(a) := now], max)
  {
    LatestAfter(history, lastRule, a, since, now);
    BufferAfter(history, a, now, max);
    AcceptKeepsSpacing(history, a, since, now);
  }

  function Reversed<T>(s: seq<T>): (r: seq<T>)
    ensures |r| == |s| && forall i :: 0 <= i < |s| ==> r[i] == s[|s|-1-i]
  {
    seq(|s|, i requires 0 <= i < |s| => s[|s|-1-i])
  }

  /** The swap loop of `Snapshot`. */
  method ReverseInPlace(out: array<Alert>)
    modifies out
    ensures forall k :: 0 <= k < out.Length ==> out[k] == old(out[out.Length-1-k])
  {
    var n := out.Length;
    var i, j := 0, n - 1;
    while i < j
      invariant 0 <= i && j == n - 1 - i && i <= j + 1
      invariant forall k :: 0 <= k < i || j < k < n ==> out[k] == old(out[n-1-k])
      invariant forall k :: i <= k <= j ==> out[k] == old(out[k])
    {
      out[i], out[j] := out[j], out[i];
      i, j := i + 1, j - 1;
    }
  }

  class Store {
    const max: nat
    var buf: seq<Alert>
    var lastRule: map<string, int>
    /** Everything accepted since the last Clear. */
    ghost var history: seq<Entry>

    ghost predicate Valid()
      reads this
    {
      Reflects(history, buf, lastRule, max)
    }

    constructor (max: int)
      ensures Valid() && history == [] && this.max == if max <= 0 then 200 else max
    {
      this.max := if max <= 0 then 200 else max;
      buf, lastRule := [], map[];
      history := [];
    }

    /**
     * `since` and `now` are the two clock readings of one call, for the age of the last alert and for this one.
     * Between calls the wall clock may step back.
     */
    method Add(a: Alert, since: int, now: int)
      requires Valid() && since <= now
      modifies this
      ensures Valid()
      ensures history == Accept(old(history), a, since, now)
    {
      var key := DedupeKey(a);
      AddReflects(history, buf, lastRule, max, a, since, now);
      if key in lastRule && since - lastRule[key] < DEDUPE_WINDOW {
        return;
      }
      lastRule := lastRule[key := now];
      history := history + [Entry(a, now)];
      buf := buf + [a];
      if |buf| > max {
        buf := buf[|buf| - max..];
      }
    }

    /** A copy, reversed in place: newest first. */
    method Snapshot() returns (out: array<Alert>)
      ensures fresh(out) && out[..] == Reversed(buf)
    {
      var n := |buf|;
      out := new Alert[n];
      forall i | 0 <= i < n {
        out[i] := buf[i];
      }
      ReverseInPlace(out);
      assert forall i :: 0 <= i < n ==> out[i] == buf[n-1-i];
    }

    method Len() returns (n: nat)
      requires Valid()
      ensures n == Min(|history|, max)
    {
      n := |buf|;
    }

    method Clear()
      requires Valid()
      modifies this
      ensures Valid() && history == [] && buf == []
    {
      buf, lastRule := [], map[];
      history := [];
    }
  }
}
