/** The in-memory hash-chained audit log, and what verifying it does and does not establish. */
module AuditChain {
  import opened Wrappers
  import opened AuditText

  const TWO64: nat := 0x1_0000_0000_0000_0000

  datatype Record = Record(sequence: nat, timestamp: Utc, kind: string, payload: string, prevHash: string, hash: string)

  /**
   * The encoding that a log is kept in: SHA-256 in hexadecimal, over the UTF-8 form of a text; the JSON
   * encoder's compaction of a raw payload, which fails on a payload that is not JSON; and the JSON text
   * of a record's hashed view.
   */
  datatype Codec = Codec(sha256: string -> string, compact: string -> Option<string>, render: Hashed -> string)

  /** The codec of the program: its hashed texts are the canonical ones. */
  function CanonicalCodec(sha256: string -> string, compact: string -> Option<string>): Codec {
    Codec(sha256, compact, CanonicalText)
  }

  /** Hashes are 64 hexadecimal digits, and a hashed text determines what was hashed. */
  ghost predicate Sound(codec: Codec) {
    && (forall text :: IsDigest(codec.sha256(text)))
    && (forall g: Hashed, h: Hashed ::
          IsPrev(g.prev) && IsPrev(h.prev) && codec.render(g) == codec.render(h) ==> g == h)
  }

  lemma CanonicalCodecSound(sha256: string -> string, compact: string -> Option<string>)
    requires forall text :: IsDigest(sha256(text))
    ensures Sound(CanonicalCodec(sha256, compact))
  {
    forall g: Hashed, h: Hashed | IsPrev(g.prev) && IsPrev(h.prev) && CanonicalText(g) == CanonicalText(h)
      ensures g == h
    {
      CanonicalTextInjective(g, h);
    }
  }

  /** `canonicalBytes`: the previous hash is a parameter, the record's own hash is left out. */
  function CanonicalBytes(codec: Codec, r: Record, prev: string): Option<string> {
    match codec.compact(r.payload)
    case None => None
    case Some(payload) => Some(codec.render(Hashed(r.sequence, r.timestamp, r.kind, payload, prev)))
  }

  function ComputeHash(codec: Codec, r: Record, prev: string): Option<string> {
    match CanonicalBytes(codec, r, prev)
    case None => None
    case Some(text) => Some(codec.sha256(text))
  }

  /** The hash that must precede position i. */
  function PrevOf(records: seq<Record>, i: nat): string
    requires i <= |records|
  {
    if i == 0 then "" else records[i-1].hash
  }

  ghost predicate LinkedAt(codec: Codec, records: seq<Record>, i: nat)
    requires i < |records|
  {
    && ComputeHash(codec, records[i], PrevOf(records, i)) == Some(records[i].hash)
    && records[i].prevHash == PrevOf(records, i)
  }

  ghost predicate Linked(codec: Codec, records: seq<Record>) {
    forall i :: 0 <= i < |records| ==> LinkedAt(codec, records, i)
  }

  /** True exactly on linked records; an error exactly when the first defect is a payload that cannot be encoded. */
  method VerifyRecords(codec: Codec, records: seq<Record>) returns (ok: bool, err: bool)
    ensures ok <==> Linked(codec, records)
    ensures err <==>
      exists i :: 0 <= i < |records| && Linked(codec, records[..i]) && codec.compact(records[i].payload).None?
  {
    var prev := "";
    for i := 0 to |records|
      invariant prev == PrevOf(records, i)
      invariant forall j :: 0 <= j < i ==> LinkedAt(codec, records, j)
    {
      PrefixLinkedAt(codec, records, i);
      var expected := ComputeHash(codec, records[i], prev);
      if expected.None? {
        assert !LinkedAt(codec, records, i);
        return false, true;
      }
      if records[i].hash != expected.value || records[i].prevHash != prev {
        assert !LinkedAt(codec, records, i);
        FirstDefect(codec, records, i);
        return false, false;
      }
      prev := records[i].hash;
    }
    LinkedCompacts(codec, records);
    return true, false;
  }

  lemma PrefixLinkedAt(codec: Codec, records: seq<Record>, n: nat)
    requires n <= |records|
    ensures Linked(codec, records[..n]) <==> forall j :: 0 <= j < n ==> LinkedAt(codec, records, j)
  {
    assert forall j :: 0 <= j < n ==> (LinkedAt(codec, records[..n], j) <==> LinkedAt(codec, records, j));
  }

  lemma LinkedCompacts(codec: Codec, records: seq<Record>)
    requires Linked(codec, records)
    ensures forall i :: 0 <= i < |records| ==> codec.compact(records[i].payload).Some?
  {
    forall i | 0 <= i < |records|
      ensures codec.compact(records[i].payload).Some?
    {
      assert LinkedAt(codec, records, i);
    }
  }

  lemma FirstDefect(codec: Codec, records: seq<Record>, i: nat)
    requires i < |records| && Linked(codec, records[..i])
    requires !LinkedAt(codec, records, i) && codec.compact(records[i].payload).Some?
    ensures !exists j :: 0 <= j < |records| && Linked(codec, records[..j]) && codec.compact(records[j].payload).None?
  {
    forall j | 0 <= j < |records| && Linked(codec, records[..j])
      ensures codec.compact(records[j].payload).Some?
    {
      PrefixLinkedAt(codec, records, i);
      PrefixLinkedAt(codec, records, j);
      assert j <= i;
      if j < i { assert LinkedAt(codec, records, j); }
    }
  }

  /** What `Append` does to a chain of these records: the new record, or the reason for refusing it. */
  function NewRecord(codec: Codec, nextSeq: nat, headHash: string, kind: string, payload: Option<string>, now: Utc)
    : Result<Record>
  {
    if kind == "" then Err("auditlog: kind required")
    else match payload
      case None => Err("auditlog: marshal payload")
      case Some(text) =>
        var rec := Record(nextSeq, now, kind, text, headHash, "");
        match ComputeHash(codec, rec, headHash)
        case None => Err("auditlog: hash record")
        case Some(h) => Ok(rec.(hash := h))
  }

  /** A record computed over the current head extends a linked chain. */
  lemma ExtendsLinked(codec: Codec, records: seq<Record>, r: Record)
    requires Linked(codec, records)
    requires r.prevHash == PrevOf(records, |records|) && ComputeHash(codec, r, r.prevHash) == Some(r.hash)
    ensures Linked(codec, records + [r])
  {
    var longer := records + [r];
    forall i | 0 <= i < |longer|
      ensures LinkedAt(codec, longer, i)
    {
      if i < |records| { assert LinkedAt(codec, records, i); }
    }
  }

  lemma NewRecordLinks(codec: Codec, records: seq<Record>, nextSeq: nat, kind: string, payload: Option<string>,
                       now: Utc)
    requires Linked(codec, records)
    ensures
      var res := NewRecord(codec, nextSeq, PrevOf(records, |records|), kind, payload, now);
      res.Ok? ==> Linked(codec, records + [res.value]) && res.value.sequence == nextSeq
  {
    var res := NewRecord(codec, nextSeq, PrevOf(records, |records|), kind, payload, now);
    if res.Ok? {
      ExtendsLinked(codec, records, res.value);
    }
  }

  /** The sequence counter wraps with the length of the chain. */
  lemma NextSequence(n: nat)
    ensures (n % TWO64 + 1) % TWO64 == (n + 1) % TWO64
  {
  }

  class Chain {
    const codec: Codec
    var records: seq<Record>
    var headHash: string
    var nextSeq: nat

    ghost predicate Valid()
      reads this
    {
      && Linked(codec, records)
      && headHash == PrevOf(records, |records|)
      && nextSeq == |records| % TWO64
      && forall i :: 0 <= i < |records| ==> records[i].sequence == i % TWO64
    }

    constructor (codec: Codec)
      ensures Valid() && records == [] && this.codec == codec
    {
      this.codec := codec;
      records, headHash, nextSeq := [], "", 0;
    }

    /** `payload` is what the JSON encoder made of the caller's payload, or None if it failed. */
    method Append(kind: string, payload: Option<string>, now: Utc) returns (res: Result<Record>)
      requires Valid()
      modifies this
      ensures Valid()
      ensures res == NewRecord(codec, old(nextSeq), old(headHash), kind, payload, now)
      ensures records == old(records) + (if res.Ok? then [res.value] else [])
      ensures res.Ok? <==> kind != "" && payload.Some? && codec.compact(payload.value).Some?
      ensures res.Ok? ==>
        var r := res.value;
        && r.kind == kind && payload == Some(r.payload) && r.timestamp == now
        && r.sequence == old(|records|) % TWO64 && r.prevHash == old(headHash) && headHash == r.hash
    {
      res := NewRecord(codec, nextSeq, headHash, kind, payload, now);
      if res.Ok? {
        NewRecordLinks(codec, records, nextSeq, kind, payload, now);
        NextSequence(|records|);
        records := records + [res.value];
        headHash := res.value.hash;
        nextSeq := (nextSeq + 1) % TWO64;
      }
    }

    method Verify() returns (ok: bool, err: bool)
      requires Valid()
      ensures ok && !err
    {
      ok, err := VerifyRecords(codec, records);
      LinkedCompacts(codec, records);
    }

    method Snapshot() returns (copy: seq<Record>)
      ensures copy == records
    {
      copy := records;
    }
  }

  // ---- Tamper evidence ----

  /** Equal in every field that the hash covers or that verification checks. */
  ghost predicate SameHashedFields(codec: Codec, r: Record, s: Record) {
    && r.sequence == s.sequence && r.timestamp == s.timestamp && r.kind == s.kind
    && codec.compact(r.payload) == codec.compact(s.payload)
    && r.prevHash == s.prevHash && r.hash == s.hash
  }

  ghost predicate AgreeUpTo(codec: Codec, a: seq<Record>, b: seq<Record>, n: nat)
    requires n <= |a| && n <= |b|
  {
    forall k :: 0 <= k < n ==> SameHashedFields(codec, a[k], b[k])
  }

  function HashedView(codec: Codec, r: Record): Hashed
    requires codec.compact(r.payload).Some?
  {
    Hashed(r.sequence, r.timestamp, r.kind, codec.compact(r.payload).value, r.prevHash)
  }

  lemma LinkedPrev(codec: Codec, records: seq<Record>, i: nat)
    requires Sound(codec) && Linked(codec, records) && i < |records|
    ensures IsPrev(records[i].prevHash) && IsDigest(records[i].hash)
    ensures records[i].prevHash == "" <==> i == 0
    ensures codec.compact(records[i].payload).Some?
    ensures records[i].hash == codec.sha256(codec.render(HashedView(codec, records[i])))
  {
    assert LinkedAt(codec, records, i);
    if i > 0 { assert LinkedAt(codec, records, i - 1); }
  }

  /** The hashed texts of two records differ and yet have one hash: a collision of SHA-256, in hand. */
  ghost predicate TextsCollide(codec: Codec, r: Record, s: Record) {
    && codec.compact(r.payload).Some? && codec.compact(s.payload).Some?
    && var x, y := codec.render(HashedView(codec, r)), codec.render(HashedView(codec, s));
       x != y && codec.sha256(x) == codec.sha256(y)
  }

  /** Some record of the one log and some record of the other exhibit a collision. */
  ghost predicate LogsCollide(codec: Codec, a: seq<Record>, b: seq<Record>) {
    exists k, l :: 0 <= k < |a| && 0 <= l < |b| && TextsCollide(codec, a[k], b[l])
  }

  /**
   * Walks two verified chains back from a shared hash. Either it finds the positions of two records whose
   * texts collide, or the two records sit at the same position and all before them agree.
   */
  function FindCollision(codec: Codec, a: seq<Record>, i: nat, b: seq<Record>, j: nat): (r: Option<(nat, nat)>)
    requires Sound(codec) && Linked(codec, a) && Linked(codec, b)
    requires i < |a| && j < |b| && a[i].hash == b[j].hash
    ensures r.Some? ==> r.value.0 <= i && r.value.1 <= j && TextsCollide(codec, a[r.value.0], b[r.value.1])
    ensures r.None? ==> i == j && AgreeUpTo(codec, a, b, i + 1)
    decreases i
  {
    LinkedPrev(codec, a, i);
    LinkedPrev(codec, b, j);
    var g, h := HashedView(codec, a[i]), HashedView(codec, b[j]);
    if codec.render(g) != codec.render(h) then Some((i, j))
    else if i == 0 then None
    else
      assert LinkedAt(codec, a, i) && LinkedAt(codec, b, j);
      FindCollision(codec, a, i - 1, b, j - 1)
  }

  /** Anything edited, removed, inserted or moved before a kept record is detected, or a collision is in hand. */
  lemma TamperingDetected(codec: Codec, a: seq<Record>, i: nat, b: seq<Record>, j: nat)
    requires Sound(codec) && Linked(codec, a)
    requires i < |a| && j < |b| && a[i].hash == b[j].hash
    requires i != j || !AgreeUpTo(codec, a, b, i + 1)
    ensures !Linked(codec, b) || LogsCollide(codec, a[..i+1], b[..j+1])
  {
    if Linked(codec, b) {
      var c := FindCollision(codec, a, i, b, j);
      assert c.Some?;
      assert a[..i+1][c.value.0] == a[c.value.0] && b[..j+1][c.value.1] == b[c.value.1];
    }
  }

  /** Two verified logs with the same head are the same log, up to payload spacing, or they exhibit a collision. */
  lemma HeadHashDeterminesLog(codec: Codec, a: seq<Record>, b: seq<Record>)
    requires Sound(codec) && Linked(codec, a) && Linked(codec, b)
    requires PrevOf(a, |a|) == PrevOf(b, |b|)
    ensures (|a| == |b| && AgreeUpTo(codec, a, b, |a|)) || LogsCollide(codec, a, b)
  {
    if |a| > 0 && |b| > 0 {
      var c := FindCollision(codec, a, |a| - 1, b, |b| - 1);
      if c.Some? { assert TextsCollide(codec, a[c.value.0], b[c.value.1]); }
    } else if |a| > 0 {
      LinkedPrev(codec, a, |a| - 1);
    } else if |b| > 0 {
      LinkedPrev(codec, b, |b| - 1);
    }
  }

  /** Without a head hash to compare, cutting records off the end goes unnoticed ... */
  lemma TruncationUndetected(codec: Codec, records: seq<Record>, n: nat)
    requires Linked(codec, records) && n <= |records|
    ensures Linked(codec, records[..n])
  {
    PrefixLinkedAt(codec, records, n);
  }

  /** ... but cutting off the oldest records makes verification fail: a retained tail never verifies alone. */
  lemma DroppedHeadRejected(codec: Codec, records: seq<Record>, n: nat)
    requires Sound(codec) && Linked(codec, records) && 0 < n < |records|
    ensures !Linked(codec, records[n..])
  {
    LinkedPrev(codec, records, n);
    assert !LinkedAt(codec, records[n..], 0);
  }

  /** Rewriting only the spacing of a stored payload goes unnoticed; any other rewrite needs a collision to pass. */
  lemma PayloadRewrite(codec: Codec, records: seq<Record>, i: nat, payload: string)
    requires Sound(codec) && Linked(codec, records) && i < |records|
    ensures
      var r := records[i];
      var s := r.(payload := payload);
      Linked(codec, records[i := s]) <==>
        codec.compact(payload) == codec.compact(r.payload) || TextsCollide(codec, r, s)
  {
    var r := records[i];
    var s := r.(payload := payload);
    var edited := records[i := s];
    LinkedPrev(codec, records, i);
    if codec.compact(payload) == codec.compact(r.payload) || TextsCollide(codec, r, s) {
      forall k | 0 <= k < |records|
        ensures LinkedAt(codec, edited, k)
      {
        assert LinkedAt(codec, records, k);
        assert PrevOf(edited, k) == PrevOf(records, k);
      }
    } else if Linked(codec, edited) {
      LinkedPrev(codec, edited, i);
    }
  }
}
