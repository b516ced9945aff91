/**
 * Exactly which changed logs verification accepts: any contents at all, once the hashes are computed
 * anew; and only the true log, once a hash is kept elsewhere to compare with.
 */
module ForgedLogs {
  import opened Wrappers
  import opened AuditChain

  ghost predicate Encodable(codec: Codec, records: seq<Record>) {
    forall i :: 0 <= i < |records| ==> codec.compact(records[i].payload).Some?
  }

  /** The same records but for their links and hashes. */
  ghost predicate SameContents(a: seq<Record>, b: seq<Record>) {
    && |a| == |b|
    && forall i :: 0 <= i < |a| ==> a[i] == b[i].(prevHash := a[i].prevHash, hash := a[i].hash)
  }

  /** A record linked to the given hash, its own hash computed to match. */
  function Sealed(codec: Codec, r: Record, prev: string): Record
    requires codec.compact(r.payload).Some?
  {
    r.(prevHash := prev, hash := ComputeHash(codec, r, prev).value)
  }

  /** All links and hashes computed anew, from the first record on. */
  function Resealed(codec: Codec, records: seq<Record>): seq<Record>
    requires Encodable(codec, records)
  {
    if |records| == 0 then []
    else
      var front := Resealed(codec, records[..|records|-1]);
      front + [Sealed(codec, records[|records|-1], PrevOf(front, |front|))]
  }

  lemma {:induction false} ResealedVerifies(codec: Codec, records: seq<Record>)
    requires Encodable(codec, records)
    ensures SameContents(Resealed(codec, records), records)
    ensures Linked(codec, Resealed(codec, records))
  {
    if |records| > 0 {
      var front := Resealed(codec, records[..|records|-1]);
      ResealedVerifies(codec, records[..|records|-1]);
      ExtendsLinked(codec, front, Sealed(codec, records[|records|-1], PrevOf(front, |front|)));
    }
  }

  /** What already verifies is left as it is. */
  lemma {:induction false} ResealedFixed(codec: Codec, records: seq<Record>)
    requires Linked(codec, records) && Encodable(codec, records)
    ensures Resealed(codec, records) == records
  {
    if |records| > 0 {
      var n := |records| - 1;
      PrefixLinkedAt(codec, records, n);
      ResealedFixed(codec, records[..n]);
      assert LinkedAt(codec, records, n);
      assert PrevOf(records[..n], n) == PrevOf(records, n);
      assert records == records[..n] + [records[n]];
    }
  }

  lemma {:induction false} ResealedPrefix(codec: Codec, records: seq<Record>, n: nat)
    requires Encodable(codec, records) && n <= |records|
    ensures n <= |Resealed(codec, records)| && Resealed(codec, records)[..n] == Resealed(codec, records[..n])
    decreases |records|
  {
    ResealedVerifies(codec, records);
    if n < |records| {
      assert records[..|records|-1][..n] == records[..n];
      ResealedPrefix(codec, records[..|records|-1], n);
    } else {
      assert records[..n] == records;
    }
  }

  /** Some verified log has the given contents exactly when every payload can be encoded. */
  lemma ContentsVerifyExactly(codec: Codec, contents: seq<Record>)
    ensures (exists b: seq<Record> :: SameContents(b, contents) && Linked(codec, b)) <==> Encodable(codec, contents)
  {
    if Encodable(codec, contents) {
      ResealedVerifies(codec, contents);
    }
    if b: seq<Record> :| SameContents(b, contents) && Linked(codec, b) {
      LinkedCompacts(codec, b);
      assert forall i :: 0 <= i < |b| ==> b[i].payload == contents[i].payload;
    }
  }

  /**
   * From any position on, a verified log can be given any other contents and still verify: records edited,
   * dropped, inserted or moved there go unnoticed when the hashes after them are computed anew.
   */
  lemma RewriteUndetected(codec: Codec, a: seq<Record>, i: nat, contents: seq<Record>) returns (b: seq<Record>)
    requires Linked(codec, a) && i <= |a| && Encodable(codec, contents)
    ensures Linked(codec, b)
    ensures |b| == i + |contents| && b[..i] == a[..i] && SameContents(b[i..], contents)
  {
    var forged := a[..i] + contents;
    LinkedCompacts(codec, a);
    PrefixLinkedAt(codec, a, i);
    assert forged[..i] == a[..i];
    b := Resealed(codec, forged);
    ResealedVerifies(codec, forged);
    ResealedPrefix(codec, forged, i);
    ResealedFixed(codec, a[..i]);
  }

  /** In particular, one record can be given another kind and payload without changing the log's length. */
  lemma EditUndetected(codec: Codec, a: seq<Record>, i: nat, kind: string, payload: string) returns (b: seq<Record>)
    requires Linked(codec, a) && i < |a| && codec.compact(payload).Some?
    ensures Linked(codec, b) && |b| == |a| && b[..i] == a[..i]
    ensures b[i].kind == kind && b[i].payload == payload
    ensures SameContents(b[i+1..], a[i+1..])
  {
    LinkedCompacts(codec, a);
    var contents := [a[i].(kind := kind, payload := payload)] + a[i+1..];
    b := RewriteUndetected(codec, a, i, contents);
    assert forall k :: 0 <= k < |contents| ==> b[i+k] == b[i..][k];
    assert b[i] == b[i..][0];
  }

  /** One replaced record passes exactly when it is sealed over its predecessor and its successor still fits. */
  lemma OneRecordEditExactly(codec: Codec, a: seq<Record>, i: nat, s: Record)
    requires Linked(codec, a) && i < |a|
    ensures Linked(codec, a[i := s]) <==>
      && ComputeHash(codec, s, PrevOf(a, i)) == Some(s.hash) && s.prevHash == PrevOf(a, i)
      && (i + 1 == |a| || s.hash == a[i].hash)
  {
    var b := a[i := s];
    assert PrevOf(b, i) == PrevOf(a, i);
    if ComputeHash(codec, s, PrevOf(a, i)) == Some(s.hash) && s.prevHash == PrevOf(a, i)
       && (i + 1 == |a| || s.hash == a[i].hash) {
      forall k | 0 <= k < |b|
        ensures LinkedAt(codec, b, k)
      {
        assert LinkedAt(codec, a, k);
      }
    }
    if Linked(codec, b) {
      assert LinkedAt(codec, b, i);
      if i + 1 < |a| { assert LinkedAt(codec, b, i + 1) && LinkedAt(codec, a, i + 1); }
    }
  }

  /** So below the last record, a single edit that verifies changes no hashed field, or is a collision in hand. */
  lemma InteriorEditDetected(codec: Codec, a: seq<Record>, i: nat, s: Record)
    requires Sound(codec) && Linked(codec, a) && i + 1 < |a|
    ensures Linked(codec, a[i := s]) ==> SameHashedFields(codec, a[i], s) || TextsCollide(codec, a[i], s)
  {
    if Linked(codec, a[i := s]) {
      OneRecordEditExactly(codec, a, i, s);
      LinkedPrev(codec, a, i);
      LinkedPrev(codec, a[i := s], i);
      assert LinkedAt(codec, a, i);
    }
  }

  lemma AgreeingLogsVerify(codec: Codec, a: seq<Record>, b: seq<Record>)
    requires Linked(codec, a) && |a| == |b| && AgreeUpTo(codec, a, b, |a|)
    ensures Linked(codec, b) && PrevOf(a, |a|) == PrevOf(b, |b|)
  {
    forall k | 0 <= k < |b|
      ensures LinkedAt(codec, b, k)
    {
      assert LinkedAt(codec, a, k) && SameHashedFields(codec, a[k], b[k]);
      if k > 0 { assert SameHashedFields(codec, a[k-1], b[k-1]); }
    }
  }

  /**
   * With the head hash kept elsewhere, exactly the same log passes, up to payload spacing, unless a collision
   * is in hand.
   */
  lemma HeadHashExactly(codec: Codec, a: seq<Record>, b: seq<Record>)
    requires Sound(codec) && Linked(codec, a) && !LogsCollide(codec, a, b)
    ensures Linked(codec, b) && PrevOf(a, |a|) == PrevOf(b, |b|)
       <==> |a| == |b| && AgreeUpTo(codec, a, b, |a|)
  {
    if Linked(codec, b) && PrevOf(a, |a|) == PrevOf(b, |b|) {
      HeadHashDeterminesLog(codec, a, b);
    }
    if |a| == |b| && AgreeUpTo(codec, a, b, |a|) {
      AgreeingLogsVerify(codec, a, b);
    }
  }

  /** The same for any kept hash: it vouches for the records up to it, and for nothing after it. */
  lemma KeptHashExactly(codec: Codec, a: seq<Record>, i: nat, b: seq<Record>, j: nat)
    requires Sound(codec) && Linked(codec, a) && i < |a| && j < |b|
    requires !LogsCollide(codec, a[..i+1], b[..j+1])
    ensures Linked(codec, b[..j+1]) && b[j].hash == a[i].hash <==> i == j && AgreeUpTo(codec, a, b, i + 1)
  {
    var x, y := a[..i+1], b[..j+1];
    PrefixLinkedAt(codec, a, i + 1);
    HeadHashExactly(codec, x, y);
    assert i == j ==> (AgreeUpTo(codec, x, y, i + 1) <==> AgreeUpTo(codec, a, b, i + 1));
  }
}
