/** The relational store of soulon-backend/internal/indexer/postgres_store.go as
    tables with their keys and UNIQUE columns. `history` is not a table: it lists
    what each retention pass deleted from indexer_blocks, oldest first. */
module PostgresTables {
  import opened Collections
  import opened Events
  import opened EventIndex

  datatype Row = Row(eventId: string, blockHash: string, parentHash: string, payload: string)

  datatype Db = Db(
    blocks: map<int, Row>,
    state: StoreState,
    log: seq<Event>,
    archive: map<int, Row>,
    history: seq<map<int, Row>>)

  const EMPTY_DB := Db(map[], StoreState(0, "", 0, 0), [], map[], [])

  function RowOf(e: Event): Row {
    Row(e.id, e.blockHash, e.parentHash, e.payload)
  }

  /** The two UNIQUE columns of indexer_blocks and of its archive. */
  predicate Unique(rows: map<int, Row>) {
    forall h, k | h in rows && k in rows && h != k ::
      rows[h].eventId != rows[k].eventId && rows[h].blockHash != rows[k].blockHash
  }

  function RowsBelow(rows: map<int, Row>, from: int): map<int, Row> {
    map h | h in rows && h < from :: rows[h]
  }

  function RowsFrom(rows: map<int, Row>, from: int): map<int, Row> {
    map h | h in rows && h >= from :: rows[h]
  }

  predicate Knows(rows: map<int, Row>, eventId: string) {
    exists h :: h in rows && rows[h].eventId == eventId
  }

  ghost predicate IsTopRow(rows: map<int, Row>, height: int, hash: string) {
    IsTopKey(rows, height) && hash == if height in rows then rows[height].blockHash else ""
  }

  /** The row with the greatest height, or (0, "") without rows. */
  ghost function TopRow(rows: map<int, Row>): (top: (int, string))
    ensures IsTopRow(rows, top.0, top.1)
  {
    if rows.Keys == {} then (0, "")
    else (Highest(rows.Keys), rows[Highest(rows.Keys)].blockHash)
  }

  lemma TopRowUnique(rows: map<int, Row>, height: int, hash: string)
    requires IsTopRow(rows, height, hash)
    ensures TopRow(rows) == (height, hash)
  {
    if height in rows {
      assert TopRow(rows).0 in rows;
    }
  }

  function RequiresRollback(db: Db, e: Event): Fork {
    if e.height in db.blocks && db.blocks[e.height].blockHash != e.blockHash then ForkAt(e.height)
    else if db.state.tipHeight > 0 && e.height <= db.state.tipHeight then ForkAt(e.height)
    else if db.state.tipHash != "" && e.parentHash != "" && db.state.tipHash != e.parentHash then
      ForkAt(RollbackPoint(e.height))
    else NoFork
  }

  ghost function RefreshState(db: Db): Db {
    var top := TopRow(db.blocks);
    db.(state := StoreState(top.0, top.1, |db.blocks|, db.state.reorgs))
  }

  function WithRollback(db: Db, record: Event, from: int): Db {
    db.(log := db.log + [record],
        blocks := RowsBelow(db.blocks, from),
        state := db.state.(reorgs := db.state.reorgs + 1))
  }

  /** INSERT ... ON CONFLICT(height) DO UPDATE: either arm leaves this row. */
  function WithBlock(db: Db, e: Event): Db {
    db.(log := db.log + [e], blocks := db.blocks[e.height := RowOf(e)])
  }

  function KeepFrom(retention: int, db: Db): int {
    db.state.tipHeight - retention + 1
  }

  predicate Prunes(retention: int, db: Db) {
    retention > 0 && KeepFrom(retention, db) > 1
  }

  function Cleaned(retention: int, db: Db): Db {
    if !Prunes(retention, db) then db
    else
      var pruned := RowsBelow(db.blocks, KeepFrom(retention, db));
      db.(archive := pruned + db.archive,
          blocks := RowsFrom(db.blocks, KeepFrom(retention, db)),
          history := db.history + [pruned])
  }

  /** Moving the old rows breaks no UNIQUE column of the archive. */
  predicate ArchiveAccepts(retention: int, db: Db) {
    Prunes(retention, db) ==> Unique(Cleaned(retention, db).archive)
  }

  /** A statement that breaks a UNIQUE column fails, and with it the transaction. */
  ghost function UpsertBlock(retention: int, db: Db, e: Event, now: int): (Db, Outcome) {
    if Knows(db.blocks, e.id) then (db, Duplicate)
    else
      var fork := RequiresRollback(db, e);
      var cleared := if fork.ForkAt? then WithRollback(db, CompensatingRecord(fork.from, now), fork.from) else db;
      var inserted := WithBlock(cleared, e);
      if !Unique(inserted.blocks) then (db, StorageFailed)
      else
        var refreshed := RefreshState(inserted);
        if !ArchiveAccepts(retention, refreshed) then (db, StorageFailed)
        else (RefreshState(Cleaned(retention, refreshed)), Created)
  }

  ghost function UpsertRollback(db: Db, event: Event, now: int): (Db, Outcome) {
    if event.rollbackFrom <= 0 then (db, InvalidRollback)
    else (RefreshState(WithRollback(db, RequestedRecord(event, now), event.rollbackFrom)), Created)
  }

  /** `commits` says whether every statement and the COMMIT get through. */
  ghost function Upsert(retention: int, db: Db, event: Event, now: int, commits: bool): (Db, Outcome) {
    var done := if IsBlock(event) then UpsertBlock(retention, db, WithIds(WithKind(event)), now)
                else UpsertRollback(db, event, now);
    if !commits && !Failed(done.1) then (db, StorageFailed) else done
  }

  /** A refused event leaves the tables alone. */
  lemma RefusalChangesNothing(retention: int, db: Db, e: Event, now: int)
    ensures Failed(UpsertBlock(retention, db, e, now).1) ==> UpsertBlock(retention, db, e, now).0 == db
    ensures Failed(UpsertRollback(db, e, now).1) ==> UpsertRollback(db, e, now).0 == db
    ensures UpsertRollback(db, WithKind(e), now) == UpsertRollback(db, e, now)
  {
  }

  ghost function RunMaintenance(retention: int, db: Db, commits: bool): (Db, bool) {
    var refreshed := RefreshState(db);
    if !ArchiveAccepts(retention, refreshed) || !commits then (db, false)
    else (RefreshState(Cleaned(retention, refreshed)), true)
  }
}

/** The store object: every method runs the statements of its Go counterpart in
    order on the tables, and an error restores what the transaction started from. */
module PostgresStores {
  import opened Events
  import opened EventIndex
  import opened PostgresTables
  import Spec = PostgresTables

  class PostgresStore {
    const retentionBlocks: int
    var blocks: map<int, Row>
    var state: StoreState
    var log: seq<Event>
    var archive: map<int, Row>
    ghost var history: seq<map<int, Row>>

    ghost function Value(): Db
      reads this
    {
      Db(blocks, state, log, archive, history)
    }

    constructor (retentionBlocks: int)
      ensures this.retentionBlocks == retentionBlocks && Value() == EMPTY_DB
    {
      this.retentionBlocks := retentionBlocks;
      blocks, state, log, archive, history := map[], StoreState(0, "", 0, 0), [], map[], [];
    }

    method Upsert(delivered: Event, now: int, commits: bool) returns (outcome: Outcome)
      modifies this
      ensures (Value(), outcome) == Spec.Upsert(retentionBlocks, old(Value()), delivered, now, commits)
    {
      hide Spec.UpsertBlock, Spec.UpsertRollback;
      var blocks0, state0, log0, archive0 := blocks, state, log, archive;
      ghost var history0 := history;
      RefusalChangesNothing(retentionBlocks, Value(), WithIds(WithKind(delivered)), now);
      RefusalChangesNothing(retentionBlocks, Value(), delivered, now);
      if IsBlock(delivered) {
        outcome := UpsertBlockTx(WithIds(WithKind(delivered)), now);
      } else {
        outcome := UpsertRollbackTx(WithKind(delivered), now);
      }
      if !commits && !Failed(outcome) {
        outcome := StorageFailed;
      }
      if Failed(outcome) {
        blocks, state, log, archive := blocks0, state0, log0, archive0;
        history := history0;
      }
    }

    method UpsertRollbackTx(event: Event, now: int) returns (outcome: Outcome)
      requires event == WithKind(event)
      modifies this
      ensures outcome == Spec.UpsertRollback(old(Value()), event, now).1
      ensures !Failed(outcome) ==> Value() == Spec.UpsertRollback(old(Value()), event, now).0
    {
      if event.rollbackFrom <= 0 {
        return InvalidRollback;
      }
      var record := event.(id := RollbackId(event.rollbackFrom, now));
      record := record.(height := event.rollbackFrom);
      LogRollbackTx(record, event.rollbackFrom);
      RefreshStateTx();
      return Created;
    }

    method UpsertBlockTx(event: Event, now: int) returns (outcome: Outcome)
      modifies this
      ensures outcome == Spec.UpsertBlock(retentionBlocks, old(Value()), event, now).1
      ensures !Failed(outcome) ==> Value() == Spec.UpsertBlock(retentionBlocks, old(Value()), event, now).0
    {
      if exists h :: h in blocks && blocks[h].eventId == event.id {
        return Duplicate;
      }
      var fork := RequiresRollbackTx(event);
      if fork.ForkAt? {
        LogRollbackTx(CompensatingRecord(fork.from, now), fork.from);
      }
      var inserted := InsertBlockTx(event);
      if !inserted {
        return StorageFailed;
      }
      RefreshStateTx();
      var cleaned := CleanupOldBlocksTx();
      if !cleaned {
        return StorageFailed;
      }
      RefreshStateTx();
      return Created;
    }

    method State() returns (row: StoreState)
      ensures row == Value().state
    {
      row := state;
    }

    method RunMaintenance(commits: bool) returns (ok: bool)
      modifies this
      ensures (Value(), ok) == Spec.RunMaintenance(retentionBlocks, old(Value()), commits)
    {
      var blocks0, state0, log0, archive0 := blocks, state, log, archive;
      ghost var history0 := history;
      RefreshStateTx();
      ok := CleanupOldBlocksTx();
      if ok {
        RefreshStateTx();
      }
      ok := ok && commits;
      if !ok {
        blocks, state, log, archive := blocks0, state0, log0, archive0;
        history := history0;
      }
    }

    method AppendEventTx(event: Event)
      modifies this`log
      ensures log == old(log) + [event]
    {
      log := log + [event];
    }

    /** The statements both kinds of rollback share. */
    method LogRollbackTx(record: Event, from: int)
      modifies this
      ensures Value() == Spec.WithRollback(old(Value()), record, from)
    {
      AppendEventTx(record);
      ApplyRollbackTx(from);
      state := state.(reorgs := state.reorgs + 1);
    }

    /** False when the row breaks a UNIQUE column. */
    method InsertBlockTx(event: Event) returns (ok: bool)
      modifies this
      ensures Value() == Spec.WithBlock(old(Value()), event)
      ensures ok == Unique(blocks)
    {
      AppendEventTx(event);
      blocks := blocks[event.height := RowOf(event)];
      ok := Unique(blocks);
    }

    method ApplyRollbackTx(from: int)
      modifies this`blocks
      ensures blocks == RowsBelow(old(blocks), from)
    {
      blocks := map h | h in blocks && h < from :: blocks[h];
    }

    method RequiresRollbackTx(event: Event) returns (fork: Fork)
      ensures fork == Spec.RequiresRollback(Value(), event)
    {
      if event.height in blocks {
        var existingHash := blocks[event.height].blockHash;
        if existingHash != event.blockHash {
          return ForkAt(event.height);
        }
      }
      if state.tipHeight > 0 && event.height <= state.tipHeight {
        return ForkAt(event.height);
      }
      if state.tipHash != "" && event.parentHash != "" && state.tipHash != event.parentHash {
        var rollbackFrom := event.height - 1;
        if rollbackFrom <= 0 {
          rollbackFrom := 1;
        }
        return ForkAt(rollbackFrom);
      }
      return NoFork;
    }

    method RefreshStateTx()
      modifies this`state
      ensures Value() == RefreshState(old(Value()))
    {
      var tipHeight, tipHash := 0, "";
      ghost var top := TopRow(blocks);
      if blocks.Keys != {} {
        assert top.0 in blocks;
        tipHeight :| tipHeight in blocks && forall h | h in blocks :: h <= tipHeight;
        tipHash := blocks[tipHeight].blockHash;
      }
      TopRowUnique(blocks, tipHeight, tipHash);
      state := StoreState(tipHeight, tipHash, |blocks|, state.reorgs);
    }

    /** False when moving rows into the archive breaks one of its UNIQUE columns. */
    method CleanupOldBlocksTx() returns (ok: bool)
      modifies this`blocks, this`archive, this`history
      ensures ok == ArchiveAccepts(retentionBlocks, old(Value()))
      ensures ok ==> Value() == Cleaned(retentionBlocks, old(Value()))
    {
      if retentionBlocks <= 0 {
        return true;
      }
      var keepFrom := state.tipHeight - retentionBlocks + 1;
      if keepFrom <= 1 {
        return true;
      }
      var pruned := map h | h in blocks && h < keepFrom :: blocks[h];
      archive := pruned + archive;
      if !Unique(archive) {
        return false;
      }
      blocks := map h | h in blocks && h >= keepFrom :: blocks[h];
      history := history + [pruned];
      return true;
    }
  }
}
