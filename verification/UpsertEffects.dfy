/** What one Upsert leaves behind in either store, said in heights, hashes and names
    alone: which blocks remain, what is stored and logged, and what is answered. */
module UpsertEffects {
  import opened Text
  import opened Events
  import opened EventIndex
  import opened PostgresTables
  import opened Retention
  import File = EventIndex
  import Pg = PostgresTables

  // ---- The delivered event and the chain it meets -------------------------------------------

  predicate Rolls(e: Event) {
    e.kind == "rollback"
  }

  function FilledId(e: Event): string {
    if e.id != "" then e.id else if e.blockHash != "" then e.blockHash else "block-" + Decimal(e.height)
  }

  function FilledHash(e: Event): string {
    if e.blockHash != "" then e.blockHash else FilledId(e)
  }

  /** A stored block says what the event said, with its name, hash and kind filled in. */
  predicate StoredAs(b: Event, e: Event) {
    && b.height == e.height && b.parentHash == e.parentHash && b.payload == e.payload
    && b.id == FilledId(e) && b.blockHash == FilledHash(e)
    && b.kind == (if e.kind == "" then "new_block" else e.kind) && b.rollbackFrom == e.rollbackFrom
  }

  /** The event lies at or below the tip, or names a parent that is not the tip. */
  predicate Forks(tipHeight: int, tipHash: string, e: Event) {
    && e.height >= 1 && tipHeight >= 1
    && (e.height <= tipHeight || (e.parentHash != "" && e.parentHash != tipHash))
  }

  /** The lowest height a forking event takes down: its own, or the one below it when
      it lies above the tip, but never 0. */
  function Floor(tipHeight: int, e: Event): int {
    if e.height <= tipHeight || e.height == 1 then e.height else e.height - 1
  }

  predicate Remains(tipHeight: int, tipHash: string, e: Event, h: int) {
    Forks(tipHeight, tipHash, e) ==> h < Floor(tipHeight, e)
  }

  // ---- The file store -----------------------------------------------------------------------

  lemma FilledInIs(e: Event)
    requires !Rolls(e)
    ensures IsBlock(e) && StoredAs(WithIds(WithKind(e)), e)
  {
  }

  lemma ForksIs(idx: Index, e: Event)
    requires Inv(idx) && !Rolls(e)
    ensures var fork := File.RequiresRollback(idx, WithIds(WithKind(e)));
            if Forks(idx.tipHeight, idx.tipHash, e) then fork == ForkAt(Floor(idx.tipHeight, e)) else fork.NoFork?
  {
    if idx.tipHeight >= 1 {
      assert idx.tipHeight in idx.blocks;
    }
  }

  /** Exactly the remaining blocks, as they were, and the event on top of them. */
  ghost predicate LeftBehind(before: map<int, Event>, tipHeight: int, tipHash: string, e: Event, after: map<int, Event>) {
    && (forall h :: h in after <==> h == e.height || (h in before && Remains(tipHeight, tipHash, e, h)))
    && (forall h | h in after && h != e.height :: after[h] == before[h])
    && StoredAs(after[e.height], e)
  }

  /** A record of a rollback the store decided on or was asked for, named after the
      height it starts at and the clock. */
  predicate RollbackRecord(r: Event, from: int, now: int) {
    r.kind == "rollback" && r.rollbackFrom == from && r.height == from
    && r.id == "rollback-" + Decimal(from) + "-" + Decimal(now)
  }

  /** The event, after the record of its rollback if it forks. */
  ghost predicate Logged(before: seq<Event>, idx: Index, e: Event, now: int, after: seq<Event>) {
    if Forks(idx.tipHeight, idx.tipHash, e) then
      && |after| == |before| + 2 && before <= after
      && RollbackRecord(after[|before|], Floor(idx.tipHeight, e), now)
      && after[|before|].payload == "{\"rollbackFrom\":" + Decimal(Floor(idx.tipHeight, e)) + "}" && StoredAs(after[|before| + 1], e)
    else
      |after| == |before| + 1 && before <= after && StoredAs(after[|before|], e)
  }

  /** A block event whose name is known is answered Duplicate and changes nothing; any
      other is accepted, and leaves exactly this. */
  lemma {:induction false} BlockUpsertLeaves(s: Store, e: Event, now: int)
    requires Inv(s.index) && !Rolls(e)
    ensures var (t, outcome) := File.Upsert(s, e, now, NO_FAULT);
            if FilledId(e) in s.index.seen then t == s && outcome == Duplicate
            else
              && outcome == Created
              && LeftBehind(s.index.blocks, s.index.tipHeight, s.index.tipHash, e, t.index.blocks)
              && t.index.reorgs == s.index.reorgs + (if Forks(s.index.tipHeight, s.index.tipHash, e) then 1 else 0)
              && Logged(s.log, s.index, e, now, t.log)
  {
    hide File.Upsert, File.RequiresRollback, Inv, WithIds, WithKind, Forks, Floor, StoredAs, IsBlock;
    var b := WithIds(WithKind(e));
    FilledInIs(e);
    ForksIs(s.index, e);
    StoredFields(b, e);
    if b.id in s.index.seen {
      UpsertKnown(s, e, now, NO_FAULT);
    } else if File.RequiresRollback(s.index, b).NoFork? {
      UpsertOnTop(s, e, now, NO_FAULT);
    } else {
      ForkPointIsPositive(s.index, b);
      UpsertForking(s, e, now, NO_FAULT);
    }
  }

  lemma StoredFields(b: Event, e: Event)
    requires StoredAs(b, e) && b == WithIds(WithKind(e))
    ensures b.id == FilledId(e) && b.height == e.height && StoredForm(b) == b
  {
  }

  /** A rollback event is refused exactly when its height is not positive; otherwise
      exactly the blocks below that height remain, and it is logged and counted. */
  lemma {:induction false} RollbackUpsertLeaves(s: Store, e: Event, now: int)
    requires Rolls(e)
    ensures var (t, outcome) := File.Upsert(s, e, now, NO_FAULT);
            if e.rollbackFrom <= 0 then t == s && outcome == InvalidRollback
            else
              && outcome == Created && t.index.reorgs == s.index.reorgs + 1
              && (forall h :: h in t.index.blocks <==> h in s.index.blocks && h < e.rollbackFrom)
              && (forall h | h in t.index.blocks :: t.index.blocks[h] == s.index.blocks[h])
              && |t.log| == |s.log| + 1 && s.log <= t.log && RollbackRecord(t.log[|s.log|], e.rollbackFrom, now)
              && t.log[|s.log|].payload == e.payload
  {
  }

  /** How many records an event needs to write. */
  function Records(s: Store, e: Event): nat {
    if Rolls(e) then (if e.rollbackFrom <= 0 then 0 else 1)
    else if FilledId(e) in s.index.seen then 0
    else if Forks(s.index.tipHeight, s.index.tipHash, e) then 2
    else 1
  }

  /** An Upsert fails for storage exactly when an append it needs fails. Without the
      first nothing has changed; without the second the rollback stands alone. */
  lemma {:induction false} FailedUpsertLeaves(s: Store, e: Event, now: int, io: Appends)
    requires Inv(s.index)
    ensures var (t, outcome) := File.Upsert(s, e, now, io);
            && (outcome == StorageFailed <==> (Records(s, e) >= 1 && !io.first) || (Records(s, e) == 2 && !io.second))
            && (outcome == StorageFailed && !io.first ==> t == s)
            && (outcome == StorageFailed && io.first ==>
                  && (forall h :: h in t.index.blocks <==> h in s.index.blocks && h < Floor(s.index.tipHeight, e))
                  && (forall h | h in t.index.blocks :: t.index.blocks[h] == s.index.blocks[h])
                  && t.index.reorgs == s.index.reorgs + 1
                  && |t.log| == |s.log| + 1 && s.log <= t.log && RollbackRecord(t.log[|s.log|], Floor(s.index.tipHeight, e), now))
            && (outcome != StorageFailed ==> (t.index, outcome) == (File.Upsert(s, e, now, NO_FAULT).0.index, File.Upsert(s, e, now, NO_FAULT).1))
  {
    hide File.RequiresRollback, Inv, ApplyBlock, Forks, Floor;
    if !Rolls(e) {
      FilledInIs(e);
      ForksIs(s.index, e);
      ForkPointIsPositive(s.index, WithIds(WithKind(e)));
    }
  }

  // ---- The relational store -------------------------------------------------------------------

  predicate RowStoredAs(r: Row, e: Event) {
    r.eventId == FilledId(e) && r.blockHash == FilledHash(e) && r.parentHash == e.parentHash && r.payload == e.payload
  }

  predicate InReach(retention: int, top: int, h: int) {
    retention > 0 ==> h > top - retention
  }

  /** Exactly the remaining rows within the window, as they were, and the event's row;
      what only the window took is archived. */
  ghost predicate RowsLeftBehind(retention: int, before: Db, e: Event, after: Db) {
    && (forall h :: h in after.blocks <==>
          h == e.height
          || (h in before.blocks && Remains(before.state.tipHeight, before.state.tipHash, e, h) && InReach(retention, e.height, h)))
    && (forall h | h in after.blocks && h != e.height :: after.blocks[h] == before.blocks[h])
    && RowStoredAs(after.blocks[e.height], e)
    && (forall h | h in before.blocks && Remains(before.state.tipHeight, before.state.tipHash, e, h) && h !in after.blocks ::
          h in after.archive && after.archive[h] == if h in before.archive then before.archive[h] else before.blocks[h])
  }

  /** No remaining row carries the event's hash already. */
  ghost predicate HashIsFree(db: Db, e: Event) {
    forall h | h in db.blocks && Remains(db.state.tipHeight, db.state.tipHash, e, h) :: db.blocks[h].blockHash != FilledHash(e)
  }

  ghost predicate NameIsKnown(db: Db, e: Event) {
    exists h :: h in db.blocks && db.blocks[h].eventId == FilledId(e)
  }

  lemma RowForksIs(retention: int, db: Db, e: Event)
    requires DbInv(retention, db) && !Rolls(e) && e.height >= 1
    ensures var fork := Pg.RequiresRollback(db, WithIds(WithKind(e)));
            if Forks(db.state.tipHeight, db.state.tipHash, e) then fork == ForkAt(Floor(db.state.tipHeight, e)) else fork.NoFork?
  {
  }

  /** The table once the event's own rollback, if any, is made. */
  ghost function Cleared(db: Db, b: Event, now: int): Db {
    var fork := Pg.RequiresRollback(db, b);
    if fork.ForkAt? then Pg.WithRollback(db, CompensatingRecord(fork.from, now), fork.from) else db
  }

  lemma ClearedIs(retention: int, db: Db, e: Event, now: int)
    requires DbInv(retention, db) && !Rolls(e) && e.height >= 1
    ensures var rows := Cleared(db, WithIds(WithKind(e)), now);
            && (forall h :: h in rows.blocks <==> h in db.blocks && Remains(db.state.tipHeight, db.state.tipHash, e, h))
            && (forall h | h in rows.blocks :: rows.blocks[h] == db.blocks[h] && h < e.height)
            && rows.archive == db.archive && Unique(rows.blocks)
            && rows.state.reorgs == db.state.reorgs + (if Forks(db.state.tipHeight, db.state.tipHash, e) then 1 else 0)
  {
    hide Pg.RequiresRollback, FirstMoved;
    RowForksIs(retention, db, e);
    var rows := Cleared(db, WithIds(WithKind(e)), now);
    assert forall h | h in rows.blocks :: h in db.blocks;
  }

  lemma InsertedUnique(rows: map<int, Row>, h: int, row: Row)
    requires Unique(rows) && h !in rows
    ensures Unique(rows[h := row]) <==>
              forall k | k in rows :: rows[k].eventId != row.eventId && rows[k].blockHash != row.blockHash
  {
    var more := rows[h := row];
    assert forall k | k in rows :: more[k] == rows[k];
    assert more[h] == row;
  }

  /** From a cleared table: insert, refresh, prune, refresh. */
  lemma PrunedBy(retention: int, rows: Db, b: Event)
    requires forall h | h in rows.blocks :: 1 <= h < b.height
    requires b.height >= 1
    ensures var refreshed := RefreshState(Pg.WithBlock(rows, b));
            var done := RefreshState(Cleaned(retention, refreshed));
            && (forall h :: h in done.blocks <==> h == b.height || (h in rows.blocks && InReach(retention, b.height, h)))
            && (forall h | h in done.blocks && h != b.height :: done.blocks[h] == rows.blocks[h])
            && done.blocks[b.height] == RowOf(b)
            && (forall h | h in rows.blocks && h !in done.blocks ::
                  h in done.archive && done.archive[h] == if h in rows.archive then rows.archive[h] else rows.blocks[h])
            && done.state == StoreState(b.height, b.blockHash, |done.blocks|, rows.state.reorgs)
  {
    InsertedIsTop(rows, b);
    var refreshed := RefreshState(Pg.WithBlock(rows, b));
    var cleaned := Cleaned(retention, refreshed);
    assert cleaned.blocks[b.height] == RowOf(b);
    TopRowUnique(cleaned.blocks, b.height, b.blockHash);
  }

  /** The same for the relational store, with any retention: a known name is a
      Duplicate; an accepted event leaves exactly this; without retention it is accepted
      exactly when no remaining row has its hash; a refusal changes nothing. */
  lemma {:induction false} RowUpsertLeaves(retention: int, db: Db, e: Event, now: int)
    requires DbInv(retention, db) && !Rolls(e) && e.height >= 1
    ensures var (after, outcome) := Pg.Upsert(retention, db, e, now, true);
            if NameIsKnown(db, e) then after == db && outcome == Duplicate
            else
              && (outcome == Created || (outcome == StorageFailed && after == db))
              && (retention <= 0 ==> (outcome == Created <==> HashIsFree(db, e)))
              && (outcome == Created ==>
                    && RowsLeftBehind(retention, db, e, after)
                    && after.state.tipHeight == e.height && after.state.tipHash == FilledHash(e)
                    && after.state.total == |after.blocks|
                    && after.state.reorgs == db.state.reorgs + (if Forks(db.state.tipHeight, db.state.tipHash, e) then 1 else 0))
  {
    hide DbInv, Pg.RequiresRollback, Cleared, WithIds, WithKind, Forks, Floor, Cleaned, ArchiveAccepts, Unique, RefreshState, IsBlock;
    var b := WithIds(WithKind(e));
    FilledInIs(e);
    ClearedIs(retention, db, e, now);
    var rows := Cleared(db, b, now);
    RowUpsertIs(retention, db, e, now);
    InsertedUnique(rows.blocks, b.height, RowOf(b));
    RowsArePositive(retention, db);
    PrunedBy(retention, rows, b);
    WithoutRetention(retention, RefreshState(Pg.WithBlock(rows, b)));
  }

  lemma RowsArePositive(retention: int, db: Db)
    requires DbInv(retention, db)
    ensures forall h | h in db.blocks :: h >= 1
  {
  }

  lemma WithoutRetention(retention: int, db: Db)
    ensures retention <= 0 ==> ArchiveAccepts(retention, db)
  {
  }

  lemma RowUpsertIs(retention: int, db: Db, e: Event, now: int)
    requires !Rolls(e)
    ensures var b := WithIds(WithKind(e));
            var inserted := Pg.WithBlock(Cleared(db, b, now), b);
            Pg.Upsert(retention, db, e, now, true) ==
              if NameIsKnown(db, e) then (db, Duplicate)
              else if !Unique(inserted.blocks) || !ArchiveAccepts(retention, RefreshState(inserted)) then (db, StorageFailed)
              else (RefreshState(Cleaned(retention, RefreshState(inserted))), Created)
  {
    hide Pg.RequiresRollback, Cleaned, ArchiveAccepts, Unique, RefreshState, Pg.WithBlock, Pg.WithRollback;
    FilledInIs(e);
  }

  /** A rollback event on the tables. */
  lemma {:induction false} RowRollbackLeaves(retention: int, db: Db, e: Event, now: int)
    requires Rolls(e)
    ensures var (after, outcome) := Pg.Upsert(retention, db, e, now, true);
            if e.rollbackFrom <= 0 then after == db && outcome == InvalidRollback
            else
              && outcome == Created && after.state.reorgs == db.state.reorgs + 1
              && (forall h :: h in after.blocks <==> h in db.blocks && h < e.rollbackFrom)
              && (forall h | h in after.blocks :: after.blocks[h] == db.blocks[h])
              && IsTopRow(after.blocks, after.state.tipHeight, after.state.tipHash) && after.state.total == |after.blocks|
              && |after.log| == |db.log| + 1 && db.log <= after.log && RollbackRecord(after.log[|db.log|], e.rollbackFrom, now)
  {
  }

  /** What does not commit changes nothing and is reported as a failure. */
  lemma UncommittedLeavesNothing(retention: int, db: Db, e: Event, now: int)
    ensures var (after, outcome) := Pg.Upsert(retention, db, e, now, false);
            after == db && (outcome == StorageFailed || outcome == InvalidRollback)
    ensures RunMaintenance(retention, db, false) == (db, false)
  {
    hide Pg.UpsertBlock, Pg.UpsertRollback;
    RefusalChangesNothing(retention, db, WithIds(WithKind(e)), now);
    RefusalChangesNothing(retention, db, e, now);
  }

  /** A maintenance pass that goes through leaves exactly the rows within the window
      below the top row, archives the others, and sets the state row by them. */
  lemma {:induction false} MaintenanceLeaves(retention: int, db: Db, top: int)
    requires RowsSound(db.blocks) && top in db.blocks && forall h | h in db.blocks :: h <= top
    requires RunMaintenance(retention, db, true).1
    ensures var after := RunMaintenance(retention, db, true).0;
            && (forall h :: h in after.blocks <==> h in db.blocks && InReach(retention, top, h))
            && (forall h | h in after.blocks :: after.blocks[h] == db.blocks[h])
            && (forall h | h in db.blocks && h !in after.blocks ::
                  h in after.archive && after.archive[h] == if h in db.archive then db.archive[h] else db.blocks[h])
            && after.state == StoreState(top, db.blocks[top].blockHash, |after.blocks|, db.state.reorgs)
  {
    hide Unique;
    TopRowUnique(db.blocks, top, db.blocks[top].blockHash);
    var cleaned := Cleaned(retention, RefreshState(db));
    assert top in cleaned.blocks;
    TopRowUnique(cleaned.blocks, top, db.blocks[top].blockHash);
  }
}
