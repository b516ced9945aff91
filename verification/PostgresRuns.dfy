/** Runs of many writers over one table, and what holds in every state they reach. */
module PostgresRuns {
  import opened Wrappers
  import opened Sorting
  import opened AuditText
  import opened AuditChain
  import opened PostgresStore

  datatype Writer = Writer(tenant: string, head: Head)

  /** `inFlight` holds the rows of INSERTs that timed out at their caller and may still commit. */
  datatype State = State(rows: seq<Row>, writers: map<nat, Writer>, inFlight: set<Row>)

  /**
   * One atomic step of one writer process, or of the server, in which an INSERT that timed out lands.
   * A process that crashes loses its cached head; its INSERTs in flight may still land.
   */
  datatype Op =
    | Open(w: nat, tenantID: string)
    | Append(w: nat, kind: string, payload: Option<string>, now: Utc, outcome: Outcome)
    | Crash(w: nat)
    | Land(row: Row)

  function Effect(codec: Codec, s: State, op: Op): Appended
    requires op.Append? && op.w in s.writers
  {
    var writer := s.writers[op.w];
    AppendEffect(codec, s.rows, writer.tenant, writer.head, op.kind, op.payload, op.now, op.outcome)
  }

  function Step(codec: Codec, s: State, op: Op): State {
    match op
    case Open(w, tenantID) =>
      var tenant := if tenantID == "" then "default" else tenantID;
      s.(writers := s.writers[w := Writer(tenant, LoadHead(s.rows, tenant))])
    case Append(w, _, _, _, _) =>
      if w !in s.writers then s
      else
        var e := Effect(codec, s, op);
        State(e.rows, s.writers[w := s.writers[w].(head := e.head)], s.inFlight + LeftInFlight(codec, s, op))
    case Crash(w) => s.(writers := s.writers - {w})
    case Land(row) =>
      if row !in s.inFlight then s
      else if !Admissible(s.rows, row.record.sequence) then s.(inFlight := s.inFlight - {row})
      else s.(rows := s.rows + [row], inFlight := s.inFlight - {row})
  }

  /** The row of an append that times out. One whose sequence is taken can never land, so it is not kept. */
  function LeftInFlight(codec: Codec, s: State, op: Op): set<Row>
    requires op.Append? && op.w in s.writers
  {
    var writer := s.writers[op.w];
    var rec := NewRecord(codec, writer.head.nextSeq, writer.head.headHash, op.kind, op.payload, op.now);
    if op.outcome == TimedOut && rec.Ok? && Admissible(s.rows, rec.value.sequence) then {Row(rec.value, writer.tenant)}
    else {}
  }

  function Run(codec: Codec, s: State, ops: seq<Op>): State {
    if |ops| == 0 then s else Step(codec, Run(codec, s, ops[..|ops|-1]), ops[|ops|-1])
  }

  const EMPTY := State([], map[], {})

  /** The rows carry sequences 0, 1, 2, ..., one tenant, and a linked chain. */
  ghost predicate Chained(codec: Codec, rows: seq<Row>) {
    && (forall i :: 0 <= i < |rows| ==> rows[i].record.sequence == i && rows[i].tenant == rows[0].tenant)
    && |rows| <= MAX_BIGINT + 1
    && Linked(codec, Records(rows))
  }

  /** A cached head marks a prefix of the rows; only the table's tenant may mark a non-empty one. */
  ghost predicate MarksPrefix(rows: seq<Row>, writer: Writer) {
    && writer.head.nextSeq <= |rows|
    && writer.head.headHash == PrevOf(Records(rows), writer.head.nextSeq)
    && (writer.head.nextSeq > 0 ==> writer.tenant == rows[0].tenant)
  }

  ghost predicate Inv(codec: Codec, s: State) {
    && Chained(codec, s.rows)
    && (forall w :: w in s.writers ==> MarksPrefix(s.rows, s.writers[w]))
    && forall row :: row in s.inFlight ==> MayLand(codec, s.rows, row)
  }

  /** A row in flight was computed over a head that marks a prefix, so it can only land at the end of that prefix. */
  ghost predicate MayLand(codec: Codec, rows: seq<Row>, row: Row) {
    && MarksPrefix(rows, Writer(row.tenant, Head(row.record.sequence, row.record.prevHash)))
    && ComputeHash(codec, row.record, row.record.prevHash) == Some(row.record.hash)
  }

  lemma {:induction false} LastRowOfOwner(rows: seq<Row>, tenant: string)
    requires forall i :: 0 <= i < |rows| ==> rows[i].record.sequence == i && rows[i].tenant == rows[0].tenant
    ensures LastRow(rows, tenant)
         == if |rows| > 0 && rows[0].tenant == tenant then Some(rows[|rows|-1]) else None
  {
    if |rows| > 0 {
      LastRowOfOwner(rows[..|rows|-1], tenant);
    }
  }

  /** Opening a store caches the whole chain, or nothing if the table belongs to another tenant. */
  lemma OpenMarksAll(codec: Codec, rows: seq<Row>, tenant: string)
    requires Chained(codec, rows)
    ensures MarksPrefix(rows, Writer(tenant, LoadHead(rows, tenant)))
    ensures |rows| > 0 && rows[0].tenant == tenant ==> LoadHead(rows, tenant).nextSeq == |rows|
  {
    LastRowOfOwner(rows, tenant);
  }

  lemma MarksPrefixGrows(rows: seq<Row>, row: Row, writer: Writer)
    requires MarksPrefix(rows, writer)
    ensures MarksPrefix(rows + [row], writer)
  {
    assert forall i :: 0 <= i < |rows| ==> Records(rows + [row])[i] == Records(rows)[i];
  }

  /** An INSERT can only succeed at the end of the chain, and then it extends the chain. */
  lemma AppendKeepsChain(codec: Codec, rows: seq<Row>, writer: Writer, op: Op)
    requires Chained(codec, rows) && MarksPrefix(rows, writer) && op.Append?
    ensures
      var e := AppendEffect(codec, rows, writer.tenant, writer.head, op.kind, op.payload, op.now, op.outcome);
      && Chained(codec, e.rows)
      && MarksPrefix(e.rows, writer.(head := e.head))
      && (e.rows == rows || (writer.head.nextSeq == |rows| && |e.rows| == |rows| + 1 && e.rows[..|rows|] == rows))
      && (e.res.Ok? ==> |e.rows| == |rows| + 1 && e.rows[|rows|].record == e.res.value)
  {
    var head := writer.head;
    var e := AppendEffect(codec, rows, writer.tenant, head, op.kind, op.payload, op.now, op.outcome);
    if e.rows != rows {
      var rec := NewRecord(codec, head.nextSeq, head.headHash, op.kind, op.payload, op.now).value;
      var row := Row(rec, writer.tenant);
      assert e.rows == rows + [row];
      if head.nextSeq < |rows| { assert rows[head.nextSeq] in rows; }
      RecordIsHashed(codec, head.nextSeq, head.headHash, op.kind, op.payload, op.now);
      ExtendsLinked(codec, Records(rows), rec);
      assert Records(e.rows) == Records(rows) + [rec];
      MarksPrefixGrows(rows, row, writer);
    }
  }

  lemma RecordIsHashed(codec: Codec, nextSeq: nat, headHash: string, kind: string, payload: Option<string>, now: Utc)
    ensures
      var r := NewRecord(codec, nextSeq, headHash, kind, payload, now);
      r.Ok? ==>
        && ComputeHash(codec, r.value, r.value.prevHash) == Some(r.value.hash)
        && r.value.sequence == nextSeq && r.value.prevHash == headHash
  {
  }

  lemma TakenBelow(rows: seq<Row>, n: nat)
    requires forall i :: 0 <= i < |rows| ==> rows[i].record.sequence == i
    ensures n < |rows| ==> Taken(rows, n)
  {
    if n < |rows| { assert rows[n] in rows; }
  }

  /** Landing extends the chain too: an admissible row in flight continues the last row. */
  lemma LandKeepsChain(codec: Codec, rows: seq<Row>, row: Row)
    requires Chained(codec, rows) && MayLand(codec, rows, row) && Admissible(rows, row.record.sequence)
    ensures row.record.sequence == |rows|
    ensures Chained(codec, rows + [row])
  {
    TakenBelow(rows, row.record.sequence);
    ExtendsLinked(codec, Records(rows), row.record);
    assert Records(rows + [row]) == Records(rows) + [row.record];
  }

  lemma LandKeepsInv(codec: Codec, s: State, row: Row)
    requires Inv(codec, s) && row in s.inFlight
    ensures Inv(codec, Step(codec, s, Land(row)))
    ensures s.rows <= Step(codec, s, Land(row)).rows
  {
    if Admissible(s.rows, row.record.sequence) {
      LandKeepsChain(codec, s.rows, row);
      GrowthKeepsMarks(codec, s, s.rows + [row]);
    }
  }

  lemma TimeoutMayLand(codec: Codec, s: State, op: Op)
    requires Inv(codec, s) && op.Append? && op.w in s.writers
    ensures forall row :: row in LeftInFlight(codec, s, op) ==> MayLand(codec, s.rows, row)
  {
    var head := s.writers[op.w].head;
    RecordIsHashed(codec, head.nextSeq, head.headHash, op.kind, op.payload, op.now);
  }

  lemma AppendKeepsInv(codec: Codec, s: State, op: Op)
    requires Inv(codec, s) && op.Append? && op.w in s.writers
    ensures Inv(codec, Step(codec, s, op))
    ensures s.rows <= Step(codec, s, op).rows
  {
    var e := Effect(codec, s, op);
    AppendKeepsChain(codec, s.rows, s.writers[op.w], op);
    TimeoutMayLand(codec, s, op);
    GrowthKeepsMarks(codec, s, e.rows);
    if LeftInFlight(codec, s, op) != {} { assert e.rows == s.rows; }
  }

  /** One more row leaves every cached head and every row in flight marking the prefix that it marked. */
  lemma GrowthKeepsMarks(codec: Codec, s: State, rows: seq<Row>)
    requires Inv(codec, s)
    requires rows == s.rows || (|rows| == |s.rows| + 1 && rows[..|s.rows|] == s.rows)
    ensures forall w :: w in s.writers ==> MarksPrefix(rows, s.writers[w])
    ensures forall row :: row in s.inFlight ==> MayLand(codec, rows, row)
    ensures s.rows <= rows
  {
    if rows != s.rows {
      assert rows == s.rows + [rows[|s.rows|]];
      forall writer: Writer | MarksPrefix(s.rows, writer)
        ensures MarksPrefix(rows, writer)
      {
        MarksPrefixGrows(s.rows, rows[|s.rows|], writer);
      }
    }
  }

  lemma StepKeepsInv(codec: Codec, s: State, op: Op)
    requires Inv(codec, s)
    ensures Inv(codec, Step(codec, s, op))
    ensures s.rows <= Step(codec, s, op).rows
  {
    match op
    case Open(w, tenantID) =>
      OpenMarksAll(codec, s.rows, if tenantID == "" then "default" else tenantID);
    case Append(w, _, _, _, _) =>
      if w in s.writers { AppendKeepsInv(codec, s, op); }
    case Crash(w) =>
    case Land(row) =>
      if row in s.inFlight { LandKeepsInv(codec, s, row); }
  }

  /** Every interleaving of opens, appends with any outcome, late commits and crashes keeps one linked chain. */
  lemma {:induction false} EveryRunIsSafe(codec: Codec, ops: seq<Op>)
    ensures Inv(codec, Run(codec, EMPTY, ops))
  {
    if |ops| > 0 {
      EveryRunIsSafe(codec, ops[..|ops|-1]);
      StepKeepsInv(codec, Run(codec, EMPTY, ops[..|ops|-1]), ops[|ops|-1]);
    }
  }

  /** Rows are never changed or removed, whatever follows. */
  lemma {:induction false} RowsOnlyGrow(codec: Codec, s: State, ops: seq<Op>)
    requires Inv(codec, s)
    ensures Inv(codec, Run(codec, s, ops)) && s.rows <= Run(codec, s, ops).rows
  {
    if |ops| > 0 {
      RowsOnlyGrow(codec, s, ops[..|ops|-1]);
      StepKeepsInv(codec, Run(codec, s, ops[..|ops|-1]), ops[|ops|-1]);
    }
  }

  /** Behind the table: another row already took the sequence this writer would use. */
  ghost predicate Stale(s: State, w: nat) {
    w in s.writers && s.writers[w].head.nextSeq < |s.rows|
  }

  /** A stale writer's append, whatever its outcome would have been, changes nothing and reports an error. */
  lemma StaleAppendFails(codec: Codec, s: State, op: Op)
    requires Inv(codec, s) && op.Append? && Stale(s, op.w)
    ensures Effect(codec, s, op).res.Err?
    ensures Step(codec, s, op) == s
  {
    var n := s.writers[op.w].head.nextSeq;
    assert s.rows[n] in s.rows && s.rows[n].record.sequence == n;
    assert s.writers[op.w := s.writers[op.w]] == s.writers;
  }

  /** An up-to-date writer of the table's tenant succeeds when the record can be built and the INSERT commits. */
  lemma CurrentAppendSucceeds(codec: Codec, s: State, op: Op)
    requires Inv(codec, s) && op.Append? && op.w in s.writers && !Stale(s, op.w)
    requires op.outcome == Committed && |s.rows| <= MAX_BIGINT
    ensures Effect(codec, s, op).res.Ok? <==>
      op.kind != "" && op.payload.Some? && codec.compact(op.payload.value).Some?
  {
    assert !Taken(s.rows, |s.rows|);
  }

  /** Once stale, a writer appends nothing more until it is opened again. */
  lemma {:induction false} StaleUntilReopened(codec: Codec, s: State, ops: seq<Op>, w: nat)
    requires Inv(codec, s) && Stale(s, w)
    requires forall op :: op in ops ==> !(op.Open? && op.w == w)
    ensures w !in Run(codec, s, ops).writers || Stale(Run(codec, s, ops), w)
  {
    if |ops| > 0 {
      var t := Run(codec, s, ops[..|ops|-1]);
      StaleUntilReopened(codec, s, ops[..|ops|-1], w);
      RowsOnlyGrow(codec, s, ops[..|ops|-1]);
      var op := ops[|ops|-1];
      assert op in ops;
      StepKeepsInv(codec, t, op);
      if op.Append? && op.w == w && w in t.writers {
        StaleAppendFails(codec, t, op);
      }
    }
  }

  /** An insert that commits but reports an error leaves its writer stale, with the row in place. */
  lemma UnacknowledgedCommit(codec: Codec, s: State, op: Op)
    requires Inv(codec, s) && op.Append? && op.w in s.writers && op.outcome == FailedAfterCommit
    requires Step(codec, s, op).rows != s.rows
    ensures Effect(codec, s, op).res.Err? && Stale(Step(codec, s, op), op.w)
  {
    AppendKeepsChain(codec, s.rows, s.writers[op.w], op);
  }

  /** A late commit of a writer that still caches the head it timed out with leaves that writer stale as well. */
  lemma LateCommitMakesStale(codec: Codec, s: State, w: nat, row: Row)
    requires Inv(codec, s) && w in s.writers && row in s.inFlight
    requires s.writers[w].head.nextSeq <= row.record.sequence
    requires Step(codec, s, Land(row)).rows != s.rows
    ensures Stale(Step(codec, s, Land(row)), w)
  {
    LandKeepsChain(codec, s.rows, row);
  }

  /** The sequence column is the whole key: once one tenant has a row, no other tenant can ever append. */
  lemma OneTenantOwnsTable(codec: Codec, ops: seq<Op>, op: Op)
    requires op.Append? && op.w in Run(codec, EMPTY, ops).writers
    ensures
      var s := Run(codec, EMPTY, ops);
      && (forall i :: 0 <= i < |s.rows| ==> s.rows[i].tenant == s.rows[0].tenant)
      && (|s.rows| > 0 && s.writers[op.w].tenant != s.rows[0].tenant ==>
            Effect(codec, s, op).res.Err? && Step(codec, s, op) == s)
  {
    EveryRunIsSafe(codec, ops);
    var s := Run(codec, EMPTY, ops);
    if |s.rows| > 0 && s.writers[op.w].tenant != s.rows[0].tenant {
      StaleAppendFails(codec, s, op);
    }
  }

  lemma {:induction false} OfTenantAll(rows: seq<Row>, tenant: string)
    requires forall i :: 0 <= i < |rows| ==> rows[i].tenant == rows[0].tenant
    ensures OfTenant(rows, tenant) == if |rows| > 0 && rows[0].tenant == tenant then rows else []
  {
    if |rows| > 0 {
      OfTenantAll(rows[..|rows|-1], tenant);
      assert rows == rows[..|rows|-1] + [rows[|rows|-1]];
    }
  }

  /** In every reachable state a tenant's query returns the whole table in order, or nothing. */
  lemma SelectAll(codec: Codec, rows: seq<Row>, tenant: string)
    requires Chained(codec, rows)
    ensures Select(rows, tenant) == if |rows| > 0 && rows[0].tenant == tenant then rows else []
  {
    OfTenantAll(rows, tenant);
    var key := (row: Row) => -SequenceOf(row);
    SortedUnchanged(key, OfTenant(rows, tenant));
  }

  lemma ScannedRows(codec: Codec, rows: seq<Row>, tenant: string, readBack: Record -> Record)
    requires Chained(codec, rows)
    ensures |Scanned(rows, tenant, readBack)| == if |rows| > 0 && rows[0].tenant == tenant then |rows| else 0
    ensures forall i :: 0 <= i < |Scanned(rows, tenant, readBack)| ==>
      Scanned(rows, tenant, readBack)[i] == readBack(rows[i].record)
  {
    SelectAll(codec, rows, tenant);
  }

  /** Every stored row is scanned back equal in all that the hash covers. */
  ghost predicate ReadsBack(codec: Codec, rows: seq<Row>, readBack: Record -> Record) {
    forall i :: 0 <= i < |rows| ==> SameHashedFields(codec, rows[i].record, readBack(rows[i].record))
  }

  lemma FaithfulColumnsVerify(codec: Codec, rows: seq<Row>, tenant: string, readBack: Record -> Record)
    requires Chained(codec, rows) && ReadsBack(codec, rows, readBack)
    ensures Linked(codec, Scanned(rows, tenant, readBack))
  {
    ScannedRows(codec, rows, tenant, readBack);
    var scanned := Scanned(rows, tenant, readBack);
    forall i | 0 <= i < |scanned|
      ensures LinkedAt(codec, scanned, i)
    {
      assert LinkedAt(codec, Records(rows), i);
      assert SameHashedFields(codec, rows[i].record, scanned[i]);
      if i > 0 { assert SameHashedFields(codec, rows[i-1].record, scanned[i-1]); }
    }
  }

  /** If stored hashed fields read back as they were written, verification succeeds in every reachable state. */
  lemma ReachableTablesVerify(codec: Codec, ops: seq<Op>, tenant: string, readBack: Record -> Record)
    requires ReadsBack(codec, Run(codec, EMPTY, ops).rows, readBack)
    ensures Linked(codec, Scanned(Run(codec, EMPTY, ops).rows, tenant, readBack))
  {
    EveryRunIsSafe(codec, ops);
    FaithfulColumnsVerify(codec, Run(codec, EMPTY, ops).rows, tenant, readBack);
  }

  /** A column that changes a hashed field makes an untouched table fail verification, or a collision is in hand. */
  lemma LossyColumnsFailVerify(codec: Codec, ops: seq<Op>, readBack: Record -> Record, i: nat)
    requires Sound(codec) && i < |Run(codec, EMPTY, ops).rows|
    requires
      var r := Run(codec, EMPTY, ops).rows[i].record;
      readBack(r).hash == r.hash && !SameHashedFields(codec, r, readBack(r))
    ensures
      var rows := Run(codec, EMPTY, ops).rows;
      var scanned := Scanned(rows, rows[0].tenant, readBack);
      && i < |scanned|
      && (!Linked(codec, scanned) || LogsCollide(codec, Records(rows)[..i+1], scanned[..i+1]))
  {
    EveryRunIsSafe(codec, ops);
    var rows := Run(codec, EMPTY, ops).rows;
    ScannedRows(codec, rows, rows[0].tenant, readBack);
    var scanned := Scanned(rows, rows[0].tenant, readBack);
    assert !SameHashedFields(codec, Records(rows)[i], scanned[i]);
    TamperingDetected(codec, Records(rows), i, scanned, i);
  }
}
