/** The process over the relational store with a retention window: exactly which rows
    are stored, and exactly when a restart leaves a trace. */
module RetentionRestarts {
  import opened Events
  import opened EventIndex
  import opened Workers
  import opened Pipelines
  import opened PipelineRuns
  import opened PostgresTables
  import opened PostgresPipelines
  import Retention
  import PostgresPipelineRuns
  import Pg = PostgresTables

  /** The main blocks at the last `retention` heights up to the tip. */
  function Window(tip: int, retention: int): map<int, Row> {
    map h | 1 <= h <= tip && h > tip - retention :: RowOf(Main(h))
  }

  ghost predicate MainRows(rows: map<int, Row>) {
    forall h | h in rows :: h >= 1 && rows[h] == RowOf(Main(h))
  }

  ghost predicate Windowed(retention: int, db: Db) {
    && db.state.tipHeight >= 0 && db.blocks == Window(db.state.tipHeight, retention)
    && Retention.StateMatches(db) && MainRows(db.archive)
  }

  lemma MainRowsAreUnique(rows: map<int, Row>)
    requires MainRows(rows)
    ensures Unique(rows)
  {
    hide HashA, Main;
    forall h, k | h in rows && k in rows && h != k
      ensures rows[h].eventId != rows[k].eventId && rows[h].blockHash != rows[k].blockHash
    {
      MainFacts(h);
      MainFacts(k);
      HashesDiffer(h, k);
    }
  }

  /** The rows within the window below height h. */
  function Kept(rows: map<int, Row>, h: int, retention: int): map<int, Row> {
    map k | k in rows && k > h - retention :: rows[k]
  }

  lemma MainOnTop(db: Db, h: int)
    requires MainRows(db.blocks) && h >= 1 && forall k | k in db.blocks :: k < h
    ensures var refreshed := RefreshState(Pg.WithBlock(db, Main(h)));
            && MainRows(refreshed.blocks) && Unique(refreshed.blocks) && h in refreshed.blocks
            && refreshed.state.tipHeight == h && refreshed.state.reorgs == db.state.reorgs
            && forall k | k in refreshed.blocks :: k <= h
  {
    hide Main, Unique;
    MainFacts(h);
    var rows := Pg.WithBlock(db, Main(h)).blocks;
    assert MainRows(rows);
    MainRowsAreUnique(rows);
    TopRowUnique(rows, h, Main(h).blockHash);
  }

  /** A retention pass over main rows whose tip is h. */
  lemma CleanMain(retention: int, db: Db, h: int)
    requires MainRows(db.blocks) && MainRows(db.archive) && retention > 0
    requires h in db.blocks && db.state.tipHeight == h && forall k | k in db.blocks :: k <= h
    ensures var done := RefreshState(Cleaned(retention, db));
            && ArchiveAccepts(retention, db) && done.blocks == Kept(db.blocks, h, retention) && MainRows(done.archive)
            && Retention.StateMatches(done) && done.state.tipHeight == h && done.state.reorgs == db.state.reorgs
  {
    hide Main, Unique;
    var cleaned := Cleaned(retention, db);
    assert MainRows(cleaned.archive);
    MainRowsAreUnique(cleaned.archive);
    assert cleaned.blocks == Kept(db.blocks, h, retention);
    TopRowUnique(cleaned.blocks, h, cleaned.blocks[h].blockHash);
  }

  /** A main block put above all rows: it becomes the tip, and what falls out of the
      window joins the archive without a clash. */
  lemma InsertMain(retention: int, db: Db, h: int)
    requires MainRows(db.blocks) && MainRows(db.archive) && h >= 1 && retention > 0
    requires forall k | k in db.blocks :: k < h
    ensures var refreshed := RefreshState(Pg.WithBlock(db, Main(h)));
            var done := RefreshState(Cleaned(retention, refreshed));
            && Unique(Pg.WithBlock(db, Main(h)).blocks) && ArchiveAccepts(retention, refreshed)
            && done.blocks == Kept(db.blocks, h, retention)[h := RowOf(Main(h))]
            && Retention.StateMatches(done) && MainRows(done.archive)
            && done.state.tipHeight == h && done.state.reorgs == db.state.reorgs
  {
    hide Main, Unique, Cleaned, MainRows, ArchiveAccepts, Retention.StateMatches, TopRow;
    MainOnTop(db, h);
    CleanMain(retention, RefreshState(Pg.WithBlock(db, Main(h))), h);
    KeptOnTop(db.blocks, h, retention, RowOf(Main(h)));
  }

  lemma KeptOnTop(rows: map<int, Row>, h: int, retention: int, row: Row)
    requires retention > 0
    ensures Kept(rows[h := row], h, retention) == Kept(rows, h, retention)[h := row]
  {
  }

  lemma WindowMoves(n: int, retention: int)
    requires n >= 0 && retention > 0
    ensures Kept(Window(n, retention), n + 1, retention)[n + 1 := RowOf(Main(n + 1))] == Window(n + 1, retention)
    ensures Kept(map[], 1, retention)[1 := RowOf(Main(1))] == Window(1, retention)
    ensures MainRows(Window(n, retention))
  {
    hide Main;
  }

  lemma MainUpsert(retention: int, db: Db, h: int, now: int)
    ensures Pg.Upsert(retention, db, Main(h), now, true) == Pg.UpsertBlock(retention, db, Main(h), now)
  {
    hide Pg.UpsertBlock;
    MainFacts(h);
  }

  lemma KnowsStored(db: Db, retention: int, h: int)
    requires Windowed(retention, db)
    ensures Knows(db.blocks, Main(h).id) <==> h in db.blocks
  {
    hide HashA, Main, Retention.StateMatches;
    MainFacts(h);
    if h in db.blocks {
      assert db.blocks[h].eventId == Main(h).id;
    }
    forall k | k in db.blocks && db.blocks[k].eventId == Main(h).id ensures k == h {
      MainFacts(k);
      HashesDiffer(k, h);
    }
  }

  lemma KnownMain(retention: int, db: Db, h: int, now: int)
    requires Windowed(retention, db) && h in db.blocks
    ensures Pg.Upsert(retention, db, Main(h), now, true) == (db, Duplicate)
  {
    hide Main, Windowed;
    KnowsStored(db, retention, h);
    MainUpsert(retention, db, h, now);
  }

  lemma InsertUnknown(retention: int, db: Db, e: Event, now: int)
    requires !Knows(db.blocks, e.id) && Pg.RequiresRollback(db, e).NoFork?
    requires Unique(Pg.WithBlock(db, e).blocks) && ArchiveAccepts(retention, RefreshState(Pg.WithBlock(db, e)))
    ensures Pg.UpsertBlock(retention, db, e, now) ==
              (RefreshState(Cleaned(retention, RefreshState(Pg.WithBlock(db, e)))), Created)
  {
    hide Cleaned, ArchiveAccepts, Unique, Pg.WithBlock;
  }

  lemma ReplaceFrom(retention: int, db: Db, e: Event, now: int)
    requires !Knows(db.blocks, e.id) && Pg.RequiresRollback(db, e).ForkAt?
    requires var from := Pg.RequiresRollback(db, e).from;
             var rolled := Pg.WithRollback(db, CompensatingRecord(from, now), from);
             Unique(Pg.WithBlock(rolled, e).blocks) && ArchiveAccepts(retention, RefreshState(Pg.WithBlock(rolled, e)))
    ensures var from := Pg.RequiresRollback(db, e).from;
            var rolled := Pg.WithRollback(db, CompensatingRecord(from, now), from);
            Pg.UpsertBlock(retention, db, e, now) ==
              (RefreshState(Cleaned(retention, RefreshState(Pg.WithBlock(rolled, e)))), Created)
  {
    hide Cleaned, ArchiveAccepts, Unique, Pg.WithBlock, Pg.WithRollback;
  }

  /** The block after the tip: the window moves on by one. */
  lemma NextMain(retention: int, db: Db, now: int)
    requires Windowed(retention, db) && retention > 0
    ensures var (next, outcome) := Pg.Upsert(retention, db, Main(db.state.tipHeight + 1), now, true);
            && outcome == Created && Windowed(retention, next)
            && next.state.tipHeight == db.state.tipHeight + 1 && next.state.reorgs == db.state.reorgs
  {
    hide Main, HashA, Cleaned, Unique, ArchiveAccepts, Pg.Upsert, Pg.UpsertBlock, Kept, MainRows,
      Retention.StateMatches, TopRow, Pg.RequiresRollback;
    var n := db.state.tipHeight;
    MainUpsert(retention, db, n + 1, now);
    KnowsStored(db, retention, n + 1);
    WindowMoves(n, retention);
    MainFollowsRows(retention, db);
    InsertMain(retention, db, n + 1);
    InsertUnknown(retention, db, Main(n + 1), now);
  }

  lemma MainFollowsRows(retention: int, db: Db)
    requires Windowed(retention, db) && retention > 0
    ensures Pg.RequiresRollback(db, Main(db.state.tipHeight + 1)) == NoFork
  {
    hide Main, HashA, MainRows;
    var n := db.state.tipHeight;
    MainFacts(n + 1);
    MainFacts(n);
    if n > 0 {
      assert n in db.blocks;
    } else {
      assert forall h :: h !in db.blocks;
    }
  }

  /** Block 1 once it has left the window: the whole window is rolled back. */
  lemma FirstMainAgain(retention: int, db: Db, now: int)
    requires Windowed(retention, db) && 0 < retention < db.state.tipHeight
    ensures var (next, outcome) := Pg.Upsert(retention, db, Main(1), now, true);
            && outcome == Created && Windowed(retention, next)
            && next.state.tipHeight == 1 && next.state.reorgs == db.state.reorgs + 1
  {
    hide Main, HashA, Cleaned, Unique, ArchiveAccepts, Pg.Upsert, Pg.UpsertBlock;
    MainUpsert(retention, db, 1, now);
    KnowsStored(db, retention, 1);
    MainFacts(1);
    assert Pg.RequiresRollback(db, Main(1)) == ForkAt(1);
    var rolled := Pg.WithRollback(db, CompensatingRecord(1, now), 1);
    assert rolled.blocks == map[];
    InsertMain(retention, rolled, 1);
    ReplaceFrom(retention, db, Main(1), now);
    WindowMoves(0, retention);
  }

  // ---- The process ------------------------------------------------------------------------------

  /** Either everything is still stored, or the consumer is level with the tip, or it
      starts again from block 1. */
  ghost predicate Level(retention: int, db: Db, consumed: nat) {
    consumed <= db.state.tipHeight && (db.state.tipHeight <= retention || consumed == db.state.tipHeight || consumed == 0)
  }

  ghost predicate WindowInv(c: Config, retention: int, y: PgSystem) {
    && Bounded(c, y.shell)
    && (y.shell.dropped == 0 ==>
          QueueInv(c, y.shell) && Windowed(retention, y.db) && Level(retention, y.db, y.shell.consumed))
  }

  /** A committed attempt at the block after the last one consumed. */
  lemma DeliverNext(retention: int, db: Db, consumed: nat, now: int)
    requires Windowed(retention, db) && Level(retention, db, consumed) && retention > 0
    ensures var (next, outcome) := Pg.Upsert(retention, db, Main(consumed + 1), now, true);
            && !Failed(outcome) && Windowed(retention, next) && Level(retention, next, consumed + 1)
            && next.state.reorgs == db.state.reorgs + if consumed == 0 && db.state.tipHeight > retention then 1 else 0
  {
    hide Pg.Upsert, Main;
    if consumed == db.state.tipHeight {
      NextMain(retention, db, now);
    } else if consumed == 0 && db.state.tipHeight > retention {
      FirstMainAgain(retention, db, now);
    } else {
      KnownMain(retention, db, consumed + 1, now);
    }
  }

  lemma TryKeepsWindow(c: Config, retention: int, y: PgSystem, now: int, commits: bool)
    requires WindowInv(c, retention, y) && retention > 0 && c.reorgInterval <= 0
    ensures WindowInv(c, retention, Tried(c, retention, y, now, commits))
  {
    hide Pg.Upsert, QueueInv, Windowed, Level, Main, Bounded, Answered;
    if !y.shell.halted && y.shell.inHand.Trying? {
      var outcome := Pg.Upsert(retention, y.db, y.shell.inHand.event, now, commits).1;
      PostgresPipelineRuns.AttemptIsBounded(c, y.shell, outcome);
      AnswerCounts(c, y.shell, outcome);
      if y.shell.dropped == 0 {
        AnswerKeepsQueueInv(c, y.shell, outcome);
        HeadOfQueue(c, y.shell);
        if commits {
          DeliverNext(retention, y.db, y.shell.consumed, now);
        } else {
          PostgresPipelineRuns.UncommittedFails(retention, y.db, y.shell.inHand.event, now);
        }
      }
    }
  }

  lemma AnswerCounts(c: Config, y: System, outcome: Outcome)
    requires y.inHand.Trying?
    ensures var z := Answered(c, y, outcome);
            && z.dropped >= y.dropped
            && (z.dropped == y.dropped ==> z.consumed == if Failed(outcome) then y.consumed else y.consumed + 1)
  {
  }

  lemma MaintenanceKeepsWindow(retention: int, db: Db, commits: bool)
    requires Windowed(retention, db) && retention > 0
    ensures var next := RunMaintenance(retention, db, commits).0;
            Windowed(retention, next) && next.state == db.state && next.blocks == db.blocks
  {
    hide Main, Unique;
    TopRowUnique(db.blocks, db.state.tipHeight, db.state.tipHash);
    assert RefreshState(db) == db;
    var cleaned := Cleaned(retention, db);
    assert cleaned.blocks == db.blocks;
    assert RowsBelow(db.blocks, KeepFrom(retention, db)) == map[];
  }

  lemma {:induction false} WindowAlways(c: Config, retention: int, actions: seq<PgAction>)
    requires retention > 0 && c.reorgInterval <= 0
    ensures WindowInv(c, retention, RunTables(c, retention, actions))
  {
    hide QueueInv, Windowed, Tried, RunMaintenance, Step, Bounded;
    if actions == [] {
      StartsWindowed(c, retention);
    } else {
      var y := RunTables(c, retention, actions[..|actions| - 1]);
      WindowAlways(c, retention, actions[..|actions| - 1]);
      match actions[|actions| - 1]
      case Move(a) =>
        if IsMove(a) {
          StepKeepsBounded(c, y.shell, a);
          MoveCounts(c, y.shell, a);
          if y.shell.dropped == 0 { PostgresPipelineRuns.MoveKeepsQueue(c, y.shell, a); }
        }
      case TryOnce(now, commits) => TryKeepsWindow(c, retention, y, now, commits);
      case Maintain(commits) =>
        if y.shell.dropped == 0 { MaintenanceKeepsWindow(retention, y.db, commits); }
      case RestartAll => RestartKeepsWindow(c, retention, y);
    }
  }

  lemma StartsWindowed(c: Config, retention: int)
    ensures WindowInv(c, retention, PG_INITIAL)
  {
    InitialChain(c);
    assert Window(0, retention) == map[];
  }

  lemma MoveCounts(c: Config, y: System, a: Pipelines.Action)
    requires IsMove(a)
    ensures Step(c, y, a).consumed == y.consumed && Step(c, y, a).dropped == y.dropped
  {
    hide Tick;
  }

  lemma RestartKeepsWindow(c: Config, retention: int, y: PgSystem)
    requires WindowInv(c, retention, y)
    ensures WindowInv(c, retention, y.(shell := INITIAL.(dropped := y.shell.dropped)))
  {
    hide Windowed;
    InitialChain(c);
  }

  /** Without simulated reorgs, under any interleaving, failing transactions,
      maintenance and restarts, as long as no event was dropped: the rows are exactly
      the main blocks in the window below the tip. */
  lemma RowsAreTheWindow(c: Config, retention: int, actions: seq<PgAction>)
    requires retention > 0 && c.reorgInterval <= 0 && RunTables(c, retention, actions).shell.dropped == 0
    ensures var db := RunTables(c, retention, actions).db;
            db.blocks == Window(db.state.tipHeight, retention)
  {
    hide RunTables, QueueInv, Window;
    WindowAlways(c, retention, actions);
  }

  /** In every such state, a committed attempt counts a reorg exactly when it is at
      block 1 and the tip has passed the window. */
  lemma ReorgCountedIff(c: Config, retention: int, actions: seq<PgAction>, now: int)
    requires retention > 0 && c.reorgInterval <= 0 && RunTables(c, retention, actions).shell.dropped == 0
    requires !RunTables(c, retention, actions).shell.halted && RunTables(c, retention, actions).shell.inHand.Trying?
    ensures var y := RunTables(c, retention, actions);
            Tried(c, retention, y, now, true).db.state.reorgs ==
              y.db.state.reorgs + if y.shell.consumed == 0 && y.db.state.tipHeight > retention then 1 else 0
  {
    hide RunTables, QueueInv, Windowed, Level, Pg.Upsert, Main;
    var y := RunTables(c, retention, actions);
    WindowAlways(c, retention, actions);
    HeadOfQueue(c, y.shell);
    DeliverNext(retention, y.db, y.shell.consumed, now);
  }

  /** What a restarted process delivers first: blocks 1 to k once more. */
  ghost function Redelivered(retention: int, db: Db, now: int, k: nat): Db {
    if k == 0 then db else Pg.Upsert(retention, Redelivered(retention, db, now, k - 1), Main(k), now, true).0
  }

  lemma {:induction false} AllKnown(retention: int, db: Db, now: int, k: nat)
    requires Windowed(retention, db) && retention > 0 && k <= db.state.tipHeight <= retention
    ensures Redelivered(retention, db, now, k) == db
  {
    hide Pg.Upsert, Main;
    if k > 0 {
      AllKnown(retention, db, now, k - 1);
      KnownMain(retention, db, k, now);
    }
  }

  lemma {:induction false} AllAgain(retention: int, db: Db, now: int, k: nat)
    requires Windowed(retention, db) && 0 < retention < db.state.tipHeight && k >= 1
    ensures var next := Redelivered(retention, db, now, k);
            Windowed(retention, next) && next.state.tipHeight == k && next.state.reorgs == db.state.reorgs + 1
  {
    hide Pg.Upsert, Main, Windowed;
    if k == 1 {
      FirstMainAgain(retention, db, now);
      assert Redelivered(retention, db, now, 0) == db;
    } else {
      AllAgain(retention, db, now, k - 1);
      NextMain(retention, Redelivered(retention, db, now, k - 1), now);
    }
  }

  /** Once a restarted process has caught up with the old tip, the database is the one
      before the restart exactly when block 1 is still stored (or nothing is), that is
      while the tip lies within the window; otherwise the rows are the same again, but
      one more reorg has been counted. */
  lemma {:induction false} RestartLeavesNoTraceIff(c: Config, retention: int, actions: seq<PgAction>, now: int)
    requires retention > 0 && c.reorgInterval <= 0 && RunTables(c, retention, actions).shell.dropped == 0
    ensures var db := RunTables(c, retention, actions).db;
            var tip := db.state.tipHeight;
            && tip >= 0
            && (Redelivered(retention, db, now, tip) == db <==> (tip == 0 || 1 in db.blocks))
            && ((tip == 0 || 1 in db.blocks) <==> tip <= retention)
            && Redelivered(retention, db, now, tip).blocks == db.blocks
            && Redelivered(retention, db, now, tip).state.reorgs == db.state.reorgs + if tip <= retention then 0 else 1
  {
    hide RunTables, QueueInv, Pg.Upsert, Redelivered, Main;
    WindowAlways(c, retention, actions);
    var db := RunTables(c, retention, actions).db;
    if db.state.tipHeight <= retention {
      AllKnown(retention, db, now, db.state.tipHeight);
    } else {
      AllAgain(retention, db, now, db.state.tipHeight);
    }
  }
}
