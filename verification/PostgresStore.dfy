/**
 * The Postgres audit log as an optimistic-concurrency protocol: writers cache the chain head, and
 * the table's primary key on `sequence` decides between them.
 */
module PostgresStore {
  import opened Wrappers
  import opened Sorting
  import opened AuditText
  import opened AuditChain

  /** The largest value of the BIGINT column. */
  const MAX_BIGINT: nat := 0x7FFF_FFFF_FFFF_FFFF

  datatype Row = Row(record: Record, tenant: string)

  /** A store's cached view of the chain: the sequence it will use next and the hash it will link to. */
  datatype Head = Head(nextSeq: nat, headHash: string)

  /**
   * What the database does with an admissible INSERT. After a timeout the caller has its error, but the
   * statement may still be at work in the server.
   */
  datatype Outcome = Committed | FailedBeforeCommit | FailedAfterCommit | TimedOut

  /** Where opening a store may fail. */
  datatype OpenFault = DriverFails | PingFails | HeadQueryFails

  /** How reading the rows back may fail: not at all, at once, or after so many rows. */
  datatype ReadFault = ReadsAll | QueryFails | BreaksAfter(rows: nat)

  function SequenceOf(row: Row): int { row.record.sequence }

  /** SELECT ... WHERE tenant_id = t ORDER BY sequence DESC LIMIT 1. */
  function LastRow(rows: seq<Row>, tenant: string): Option<Row> {
    if |rows| == 0 then None
    else
      var row, best := rows[|rows|-1], LastRow(rows[..|rows|-1], tenant);
      if row.tenant == tenant && (best.None? || row.record.sequence > best.value.record.sequence) then Some(row)
      else best
  }

  /** The query finds a row of the tenant with the tenant's greatest sequence, whenever the tenant has a row. */
  lemma {:induction false} LastRowExactly(rows: seq<Row>, tenant: string)
    ensures LastRow(rows, tenant).Some? <==> exists row :: row in rows && row.tenant == tenant
    ensures LastRow(rows, tenant).Some? ==>
      var best := LastRow(rows, tenant).value;
      && best in rows && best.tenant == tenant
      && forall row :: row in rows && row.tenant == tenant ==> row.record.sequence <= best.record.sequence
  {
    if |rows| > 0 {
      LastRowExactly(rows[..|rows|-1], tenant);
      assert rows == rows[..|rows|-1] + [rows[|rows|-1]];
    }
  }

  function LoadHead(rows: seq<Row>, tenant: string): Head {
    match LastRow(rows, tenant)
    case None => Head(0, "")
    case Some(row) => Head(row.record.sequence + 1, row.record.hash)
  }

  predicate Taken(rows: seq<Row>, sequence: nat) {
    exists row :: row in rows && row.record.sequence == sequence
  }

  /** The column can hold the sequence, and no row has it yet. */
  predicate Admissible(rows: seq<Row>, sequence: nat) {
    !Taken(rows, sequence) && sequence <= MAX_BIGINT
  }

  datatype Appended = Appended(rows: seq<Row>, head: Head, res: Result<Record>)

  /** One `Append`: build the record from the cached head, try the INSERT, advance the head on success. */
  function AppendEffect(codec: Codec, rows: seq<Row>, tenant: string, head: Head, kind: string,
                        payload: Option<string>, now: Utc, outcome: Outcome): Appended
  {
    match NewRecord(codec, head.nextSeq, head.headHash, kind, payload, now)
    case Err(e) => Appended(rows, head, Err(e))
    case Ok(rec) =>
      if !Admissible(rows, rec.sequence) || outcome == FailedBeforeCommit || outcome == TimedOut then
        Appended(rows, head, Err("auditlog/postgres: insert"))
      else if outcome == FailedAfterCommit then
        Appended(rows + [Row(rec, tenant)], head, Err("auditlog/postgres: insert"))
      else
        Appended(rows + [Row(rec, tenant)], Head(head.nextSeq + 1, rec.hash), Ok(rec))
  }

  function OfTenant(rows: seq<Row>, tenant: string): seq<Row> {
    if |rows| == 0 then []
    else OfTenant(rows[..|rows|-1], tenant) + (if rows[|rows|-1].tenant == tenant then [rows[|rows|-1]] else [])
  }

  /** SELECT ... WHERE tenant_id = t ORDER BY sequence ASC. */
  function Select(rows: seq<Row>, tenant: string): seq<Row> {
    StableSort((row: Row) => -SequenceOf(row), OfTenant(rows, tenant))
  }

  function Records(rows: seq<Row>): (s: seq<Record>)
    ensures |s| == |rows|
    ensures forall i :: 0 <= i < |rows| ==> s[i] == rows[i].record
  {
    seq(|rows|, i requires 0 <= i < |rows| => rows[i].record)
  }

  class Table {
    var rows: seq<Row>

    constructor ()
      ensures rows == []
    {
      rows := [];
    }
  }

  class Store {
    const db: Table
    const tenant: string
    const codec: Codec
    var headHash: string
    var nextSeq: nat

    function Cached(): Head
      reads this
    {
      Head(nextSeq, headHash)
    }

    constructor Connected(db: Table, tenantID: string, codec: Codec)
      ensures this.db == db && this.codec == codec
      ensures tenant == if tenantID == "" then "default" else tenantID
      ensures Cached() == Head(0, "")
    {
      this.db := db;
      this.tenant := if tenantID == "" then "default" else tenantID;
      this.codec := codec;
      this.headHash, this.nextSeq := "", 0;
    }

    static method Open(db: Table, tenantID: string, codec: Codec, fault: Option<OpenFault>)
      returns (res: Result<Store>)
      ensures res.Err? <==> fault.Some?
      ensures res.Ok? ==>
        var s := res.value;
        && fresh(s) && s.db == db && s.codec == codec
        && s.tenant == (if tenantID == "" then "default" else tenantID)
        && s.Cached() == LoadHead(db.rows, s.tenant)
    {
      if fault.Some? && fault.value.DriverFails? {
        return Err("auditlog/postgres: open");
      }
      if fault.Some? && fault.value.PingFails? {
        return Err("auditlog/postgres: ping");
      }
      var s := new Store.Connected(db, tenantID, codec);
      if fault.Some? && fault.value.HeadQueryFails? {
        return Err("auditlog/postgres: load head");
      }
      s.QueryHead();
      res := Ok(s);
    }

    /** `loadHead`: an empty result leaves the cached head as it is. */
    method QueryHead()
      modifies this
      ensures Cached() == if LastRow(db.rows, tenant).None? then old(Cached()) else LoadHead(db.rows, tenant)
    {
      var last := LastRow(db.rows, tenant);
      if last.Some? {
        nextSeq := last.value.record.sequence + 1;
        headHash := last.value.record.hash;
      }
    }

    method Append(kind: string, payload: Option<string>, now: Utc, outcome: Outcome) returns (res: Result<Record>)
      modifies this, db
      ensures Appended(db.rows, Cached(), res)
           == AppendEffect(codec, old(db.rows), tenant, old(Cached()), kind, payload, now, outcome)
    {
      res := NewRecord(codec, nextSeq, headHash, kind, payload, now);
      if res.Err? {
        return;
      }
      var rec := res.value;
      if !Admissible(db.rows, rec.sequence) || outcome == FailedBeforeCommit || outcome == TimedOut {
        return Err("auditlog/postgres: insert");
      }
      db.rows := db.rows + [Row(rec, tenant)];
      if outcome == FailedAfterCommit {
        return Err("auditlog/postgres: insert");
      }
      headHash := rec.hash;
      nextSeq := nextSeq + 1;
    }

    /** `readBack` is what the driver scans from a stored row; the columns need not return what was written. */
    method Verify(readBack: Record -> Record, fault: ReadFault) returns (ok: bool, err: bool)
      ensures Broken(fault, Scanned(db.rows, tenant, readBack)) ==> !ok && err
      ensures
        var scanned := Scanned(db.rows, tenant, readBack);
        !Broken(fault, scanned) ==>
          && (ok <==> Linked(codec, scanned))
          && (err <==>
                exists i ::
                  0 <= i < |scanned| && Linked(codec, scanned[..i]) && codec.compact(scanned[i].payload).None?)
    {
      var records, complete := Read(readBack, fault);
      if !complete {
        return false, true;
      }
      ok, err := VerifyRecords(codec, records);
    }

    /** The query and scan loop of `Verify` and `Snapshot`. */
    method Read(readBack: Record -> Record, fault: ReadFault) returns (records: seq<Record>, complete: bool)
      ensures complete <==> !Broken(fault, Scanned(db.rows, tenant, readBack))
      ensures records == Received(fault, Scanned(db.rows, tenant, readBack))
    {
      records := [];
      if fault.QueryFails? {
        return [], false;
      }
      var rows := Select(db.rows, tenant);
      for i := 0 to |rows|
        invariant records == Scanned(db.rows, tenant, readBack)[..i]
        invariant fault.BreaksAfter? ==> i <= fault.rows
      {
        if fault == BreaksAfter(i) {
          return records, false;
        }
        records := records + [readBack(rows[i].record)];
      }
      complete := fault != BreaksAfter(|rows|);
    }

    /** A snapshot has no error to report: what was read before a failure is returned as if it were everything. */
    method Snapshot(readBack: Record -> Record, fault: ReadFault) returns (out: seq<Record>)
      ensures out == Received(fault, Scanned(db.rows, tenant, readBack))
    {
      var complete;
      out, complete := Read(readBack, fault);
    }
  }

  /** The failure happens while these records are read. */
  predicate Broken(fault: ReadFault, scanned: seq<Record>) {
    fault.QueryFails? || (fault.BreaksAfter? && fault.rows <= |scanned|)
  }

  /** The records that arrive. */
  function Received(fault: ReadFault, scanned: seq<Record>): seq<Record> {
    if fault.QueryFails? then []
    else if fault.BreaksAfter? && fault.rows <= |scanned| then scanned[..fault.rows]
    else scanned
  }

  /** So a snapshot cut short verifies whenever the whole chain does: the failure leaves no trace. */
  lemma BrokenSnapshotVerifies(codec: Codec, scanned: seq<Record>, fault: ReadFault)
    requires Linked(codec, scanned)
    ensures Linked(codec, Received(fault, scanned))
  {
    if fault.BreaksAfter? && fault.rows <= |scanned| {
      TruncationUndetected(codec, scanned, fault.rows);
    }
  }

  function Scanned(rows: seq<Row>, tenant: string, readBack: Record -> Record): seq<Record> {
    var selected := Select(rows, tenant);
    seq(|selected|, i requires 0 <= i < |selected| => readBack(selected[i].record))
  }
}
