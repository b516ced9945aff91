/** What appends to the Postgres store achieve, and not only what they leave intact. */
module PostgresProgress {
  import opened Wrappers
  import opened AuditChain
  import opened PostgresStore
  import opened PostgresRuns

  /** Opening a store on an empty table, or on the tenant's own, gives a writer that is up to date. */
  lemma OpenedIsCurrent(codec: Codec, s: State, w: nat, tenantID: string, tenant: string)
    requires Inv(codec, s) && tenant == (if tenantID == "" then "default" else tenantID)
    requires |s.rows| > 0 ==> s.rows[0].tenant == tenant
    ensures w in Step(codec, s, Open(w, tenantID)).writers && !Stale(Step(codec, s, Open(w, tenantID)), w)
  {
    OpenMarksAll(codec, s.rows, tenant);
  }

  /** An acknowledged append adds its one record and leaves its writer up to date, ready for the next one. */
  lemma AcknowledgedIsCurrent(codec: Codec, s: State, op: Op)
    requires Inv(codec, s) && op.Append? && op.w in s.writers
    ensures Effect(codec, s, op).res.Ok? ==>
      var t, rec := Step(codec, s, op), Effect(codec, s, op).res.value;
      && t.rows == s.rows + [Row(rec, s.writers[op.w].tenant)]
      && op.w in t.writers && !Stale(t, op.w)
      && t.writers[op.w].head == Head(|s.rows| + 1, rec.hash)
  {
    AppendKeepsChain(codec, s.rows, s.writers[op.w], op);
  }

  /** The record can be built, and the sequence column can hold its sequence. */
  ghost predicate Recordable(codec: Codec, s: State, op: Op) {
    && op.Append? && op.w in s.writers && |s.rows| <= MAX_BIGINT
    && op.kind != "" && op.payload.Some? && codec.compact(op.payload.value).Some?
  }

  /** What was asked to be recorded, by whom. */
  ghost predicate IsRecordOf(op: Op, tenant: string, row: Row) {
    && op.Append? && row.tenant == tenant && row.record.kind == op.kind
    && op.payload == Some(row.record.payload) && row.record.timestamp == op.now
  }

  /** The record is in the table, and no other has been added. */
  ghost predicate HasRecorded(s: State, op: Op, tenant: string, t: State) {
    |t.rows| == |s.rows| + 1 && s.rows <= t.rows && IsRecordOf(op, tenant, t.rows[|s.rows|])
  }

  /** Some row in flight is the record, and will be in the table once it lands. */
  ghost predicate WillLand(codec: Codec, s: State, op: Op, tenant: string, t: State) {
    exists row :: row in t.inFlight && HasRecorded(s, op, tenant, Step(codec, t, Land(row)))
  }

  /**
   * What an up-to-date writer's append comes to. The record is in the table at once, or, after a timeout, once
   * it lands; and the writer learns of it only by an acknowledgement.
   */
  lemma CurrentAppendOutcome(codec: Codec, s: State, op: Op)
    requires Inv(codec, s) && Recordable(codec, s, op) && !Stale(s, op.w)
    ensures
      var t, ok, tenant := Step(codec, s, op), Effect(codec, s, op).res.Ok?, s.writers[op.w].tenant;
      && (ok <==> op.outcome == Committed)
      && (op.outcome == Committed ==> HasRecorded(s, op, tenant, t) && !Stale(t, op.w))
      && (op.outcome == FailedAfterCommit ==> HasRecorded(s, op, tenant, t) && Stale(t, op.w))
      && (op.outcome == FailedBeforeCommit ==> t == s)
      && (op.outcome == TimedOut ==>
            t.rows == s.rows && t.writers == s.writers && WillLand(codec, s, op, tenant, t))
  {
    var writer := s.writers[op.w];
    var rec := NewRecord(codec, writer.head.nextSeq, writer.head.headHash, op.kind, op.payload, op.now).value;
    var row := Row(rec, writer.tenant);
    NotTaken(s.rows);
    assert writer.head.nextSeq == |s.rows| && Admissible(s.rows, rec.sequence);
    assert IsRecordOf(op, writer.tenant, row);
    assert s.writers[op.w := writer] == s.writers;
    if op.outcome == TimedOut {
      assert LeftInFlight(codec, s, op) == {row};
      var t := Step(codec, s, op);
      assert Step(codec, t, Land(row)).rows == s.rows + [row];
      assert row in t.inFlight && HasRecorded(s, op, writer.tenant, Step(codec, t, Land(row)));
    }
  }

  lemma NotTaken(rows: seq<Row>)
    requires forall i :: 0 <= i < |rows| ==> rows[i].record.sequence == i
    ensures !Taken(rows, |rows|)
  {
  }

  /** Op i of the run is a committed append by w of a record that can be built. */
  ghost predicate CommitsRecord(codec: Codec, op: Op, w: nat) {
    && op.Append? && op.w == w && op.outcome == Committed
    && op.kind != "" && op.payload.Some? && codec.compact(op.payload.value).Some?
  }

  /** Since s, writer w has appended exactly the records of these operations, in order, and is up to date. */
  ghost predicate HasAppended(s: State, ops: seq<Op>, w: nat, t: State)
    requires w in s.writers
  {
    && w in t.writers && !Stale(t, w) && t.writers[w].tenant == s.writers[w].tenant
    && |t.rows| == |s.rows| + |ops| && s.rows <= t.rows
    && forall i :: 0 <= i < |ops| ==> IsRecordOf(ops[i], s.writers[w].tenant, t.rows[|s.rows|+i])
  }

  lemma AppendsOneMore(codec: Codec, s: State, front: seq<Op>, op: Op, w: nat, t: State)
    requires w in s.writers && HasAppended(s, front, w, t) && Inv(codec, t)
    requires CommitsRecord(codec, op, w) && |t.rows| <= MAX_BIGINT
    ensures HasAppended(s, front + [op], w, Step(codec, t, op)) && Effect(codec, t, op).res.Ok?
  {
    CurrentAppendOutcome(codec, t, op);
    AcknowledgedIsCurrent(codec, t, op);
    var next := Step(codec, t, op);
    assert forall i :: 0 <= i < |t.rows| ==> next.rows[i] == t.rows[i];
  }

  /**
   * Progress: undisturbed, an up-to-date writer's committed appends all succeed, and the table grows by exactly
   * their records, in order.
   */
  lemma {:induction false} UndisturbedAppends(codec: Codec, s: State, ops: seq<Op>, w: nat)
    requires Inv(codec, s) && w in s.writers && !Stale(s, w) && |s.rows| + |ops| <= MAX_BIGINT + 1
    requires forall i :: 0 <= i < |ops| ==> CommitsRecord(codec, ops[i], w)
    ensures HasAppended(s, ops, w, Run(codec, s, ops))
  {
    if |ops| > 0 {
      var front, op := ops[..|ops|-1], ops[|ops|-1];
      UndisturbedAppends(codec, s, front, w);
      LastAppend(codec, s, front, op, w);
      assert front + [op] == ops;
    }
  }

  lemma LastAppend(codec: Codec, s: State, front: seq<Op>, op: Op, w: nat)
    requires Inv(codec, s) && w in s.writers && HasAppended(s, front, w, Run(codec, s, front))
    requires CommitsRecord(codec, op, w) && |s.rows| + |front| <= MAX_BIGINT
    ensures HasAppended(s, front + [op], w, Run(codec, s, front + [op]))
    ensures Effect(codec, Run(codec, s, front), op).res.Ok?
  {
    RowsOnlyGrow(codec, s, front);
    AppendsOneMore(codec, s, front, op, w, Run(codec, s, front));
    assert (front + [op])[..|front|] == front;
  }

  /** Each of them is acknowledged. */
  lemma UndisturbedAppendsSucceed(codec: Codec, s: State, ops: seq<Op>, w: nat, i: nat)
    requires Inv(codec, s) && w in s.writers && !Stale(s, w) && |s.rows| + |ops| <= MAX_BIGINT + 1
    requires (forall k :: 0 <= k < |ops| ==> CommitsRecord(codec, ops[k], w)) && i < |ops|
    ensures
      var before := Run(codec, s, ops[..i]);
      ops[i].Append? && ops[i].w in before.writers && Effect(codec, before, ops[i]).res.Ok?
  {
    assert CommitsRecord(codec, ops[i], w);
    UndisturbedAppends(codec, s, ops[..i], w);
    LastAppend(codec, s, ops[..i], ops[i], w);
  }
}
