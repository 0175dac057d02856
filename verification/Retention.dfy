/** Whole runs of the relational store: what the retention window, the state row
    and the archive promise after every Upsert and every maintenance pass. */
module Retention {
  import opened Collections
  import opened Events
  import opened EventIndex
  import opened PostgresTables
  import Pg = PostgresTables

  datatype Action =
    | Put(event: Event, now: int, commits: bool)
    | Maintain(commits: bool)

  ghost function Step(retention: int, db: Db, a: Action): Db {
    match a
    case Put(event, now, commits) => Pg.Upsert(retention, db, event, now, commits).0
    case Maintain(commits) => RunMaintenance(retention, db, commits).0
  }

  ghost function Run(retention: int, actions: seq<Action>): Db {
    if actions == [] then EMPTY_DB
    else Step(retention, Run(retention, actions[..|actions| - 1]), actions[|actions| - 1])
  }

  predicate PositiveAction(a: Action) {
    a.Put? && IsBlock(a.event) ==> a.event.height >= 1
  }

  // ---- The table invariant ------------------------------------------------------------

  ghost predicate RowsSound(rows: map<int, Row>) {
    && Unique(rows)
    && forall h | h in rows :: h >= 1 && rows[h].eventId != "" && rows[h].blockHash != ""
  }

  /** The state row says what the tables hold. */
  ghost predicate StateMatches(db: Db) {
    IsTopRow(db.blocks, db.state.tipHeight, db.state.tipHash) && db.state.total == |db.blocks|
  }

  /** Only the `retention` heights up to the tip are kept. */
  ghost predicate InWindow(retention: int, db: Db) {
    retention > 0 ==> forall h | h in db.blocks :: db.state.tipHeight - retention < h <= db.state.tipHeight
  }

  /** What the archive holds after some batches of rows were moved into it: the
      first row ever moved at each height. */
  ghost function FirstMoved(history: seq<map<int, Row>>): map<int, Row> {
    if history == [] then map[]
    else history[|history| - 1] + FirstMoved(history[..|history| - 1])
  }

  ghost predicate DbInv(retention: int, db: Db) {
    && RowsSound(db.blocks)
    && StateMatches(db)
    && InWindow(retention, db)
    && db.archive == FirstMoved(db.history)
    && Unique(db.archive)
  }

  lemma RefreshMatches(db: Db)
    ensures StateMatches(RefreshState(db))
  {
  }

  /** Retention pass over a table whose state row is fresh: the rest is in the
      window, the tip row stays, and the moved rows join the archive. */
  lemma CleanupKeeps(retention: int, db: Db)
    requires RowsSound(db.blocks) && StateMatches(db)
    requires db.archive == FirstMoved(db.history) && Unique(db.archive) && ArchiveAccepts(retention, db)
    ensures var done := RefreshState(Cleaned(retention, db));
            && DbInv(retention, done)
            && done.state.tipHeight == db.state.tipHeight && done.state.tipHash == db.state.tipHash
            && (db.state.tipHeight in db.blocks ==> db.state.tipHeight in done.blocks)
  {
    var cleaned := Cleaned(retention, db);
    assert IsTopRow(cleaned.blocks, db.state.tipHeight, db.state.tipHash);
    TopRowUnique(cleaned.blocks, db.state.tipHeight, db.state.tipHash);
    if Prunes(retention, db) {
      assert cleaned.history[..|db.history|] == db.history;
    }
  }

  /** Removing rows from the top keeps the rest in the (lower) window. */
  lemma RollbackKeepsWindow(retention: int, db: Db, record: Event, from: int)
    requires DbInv(retention, db) && from >= 1
    ensures DbInv(retention, RefreshState(Pg.WithRollback(db, record, from)))
  {
    var rolled := Pg.WithRollback(db, record, from);
    var done := RefreshState(rolled);
    if done.blocks.Keys != {} {
      assert done.state.tipHeight in db.blocks;
    }
  }

  /** The way is clear before an insert: no row is left at or above the event. */
  lemma InsertGoesOnTop(retention: int, db: Db, e: Event)
    requires DbInv(retention, db) && e.height >= 1
    ensures var fork := Pg.RequiresRollback(db, e);
            && (fork.NoFork? ==> forall h | h in db.blocks :: h < e.height)
            && (fork.ForkAt? ==> 1 <= fork.from <= e.height)
  {
  }

  lemma InsertedIsTop(db: Db, e: Event)
    requires forall h | h in db.blocks :: h < e.height
    ensures RefreshState(Pg.WithBlock(db, e)).state.tipHeight == e.height
    ensures RefreshState(Pg.WithBlock(db, e)).state.tipHash == e.blockHash
  {
    var inserted := Pg.WithBlock(db, e);
    assert e.height in inserted.blocks;
    TopRowUnique(inserted.blocks, e.height, e.blockHash);
  }

  lemma UpsertBlockKeeps(retention: int, db: Db, e: Event, now: int)
    requires DbInv(retention, db) && e.height >= 1 && e.id != "" && e.blockHash != ""
    ensures DbInv(retention, Pg.UpsertBlock(retention, db, e, now).0)
    ensures var done := Pg.UpsertBlock(retention, db, e, now);
            done.1 == Created ==>
              && done.0.state.tipHeight == e.height && done.0.state.tipHash == e.blockHash
              && e.height in done.0.blocks && done.0.blocks[e.height] == RowOf(e)
  {
    InsertGoesOnTop(retention, db, e);
    var fork := Pg.RequiresRollback(db, e);
    var cleared := if fork.ForkAt? then Pg.WithRollback(db, CompensatingRecord(fork.from, now), fork.from) else db;
    if !Knows(db.blocks, e.id) && Unique(Pg.WithBlock(cleared, e).blocks)
       && ArchiveAccepts(retention, RefreshState(Pg.WithBlock(cleared, e))) {
      InsertKeeps(retention, cleared, e);
    }
  }

  /** From a cleared table on: insert, refresh, prune, refresh. */
  lemma InsertKeeps(retention: int, db: Db, e: Event)
    requires RowsSound(db.blocks) && db.archive == FirstMoved(db.history) && Unique(db.archive)
    requires forall h | h in db.blocks :: h < e.height
    requires e.height >= 1 && e.id != "" && e.blockHash != "" && Unique(Pg.WithBlock(db, e).blocks)
    requires ArchiveAccepts(retention, RefreshState(Pg.WithBlock(db, e)))
    ensures var done := RefreshState(Cleaned(retention, RefreshState(Pg.WithBlock(db, e))));
            && DbInv(retention, done)
            && done.state.tipHeight == e.height && done.state.tipHash == e.blockHash
            && e.height in done.blocks && done.blocks[e.height] == RowOf(e)
  {
    var refreshed := RefreshState(Pg.WithBlock(db, e));
    InsertedIsTop(db, e);
    RefreshMatches(Pg.WithBlock(db, e));
    CleanupKeeps(retention, refreshed);
  }

  lemma StepKeeps(retention: int, db: Db, a: Action)
    requires DbInv(retention, db) && PositiveAction(a)
    ensures DbInv(retention, Step(retention, db, a))
  {
    match a
    case Put(event, now, commits) =>
      if IsBlock(event) {
        UpsertBlockKeeps(retention, db, WithIds(WithKind(event)), now);
      } else if event.rollbackFrom > 0 {
        RollbackKeepsWindow(retention, db, RequestedRecord(event, now), event.rollbackFrom);
      }
    case Maintain(commits) =>
      RefreshMatches(db);
      if ArchiveAccepts(retention, RefreshState(db)) {
        CleanupKeeps(retention, RefreshState(db));
      }
  }

  lemma {:induction false} RunKeeps(retention: int, actions: seq<Action>)
    requires forall a | a in actions :: PositiveAction(a)
    ensures DbInv(retention, Run(retention, actions))
  {
    if actions != [] {
      var n := |actions| - 1;
      assert forall a | a in actions[..n] :: a in actions;
      RunKeeps(retention, actions[..n]);
      assert actions[n] in actions;
      StepKeeps(retention, Run(retention, actions[..n]), actions[n]);
    }
  }

  lemma {:induction false} IntervalCount(heights: set<int>, low: int, n: nat)
    requires forall h | h in heights :: low <= h < low + n
    ensures |heights| <= n
  {
    if heights != {} {
      var h := Pick(heights);
      assert low <= h < low + n;
      IntervalCount(heights - {low + n - 1}, low, n - 1);
    }
  }

  /** At every point of every run from an empty database with positive heights and
      a positive retention: the kept heights lie in the window below the tip, there
      are at most `retention` of them, and the state row matches the tables. */
  lemma RetentionWindow(retention: int, actions: seq<Action>)
    requires retention > 0 && forall a | a in actions :: PositiveAction(a)
    ensures var db := Run(retention, actions);
            && (forall h | h in db.blocks :: db.state.tipHeight - retention < h <= db.state.tipHeight)
            && |db.blocks| <= retention
            && db.state.total == |db.blocks|
            && IsTopRow(db.blocks, db.state.tipHeight, db.state.tipHash)
  {
    RunKeeps(retention, actions);
    var db := Run(retention, actions);
    IntervalCount(db.blocks.Keys, db.state.tipHeight - retention + 1, retention);
  }

  /** Pruning never takes the block just accepted: it is the tip, and stored. */
  lemma {:induction false} AcceptedSurvivesPruning(retention: int, actions: seq<Action>, event: Event, now: int)
    requires (forall a | a in actions :: PositiveAction(a)) && IsBlock(event) && event.height >= 1
    requires Pg.Upsert(retention, Run(retention, actions), event, now, true).1 == Created
    ensures var e := WithIds(WithKind(event));
            var db := Pg.Upsert(retention, Run(retention, actions), event, now, true).0;
            && e.height in db.blocks && db.blocks[e.height] == RowOf(e)
            && db.state.tipHeight == e.height && db.state.tipHash == e.blockHash
  {
    RunKeeps(retention, actions);
    UpsertBlockKeeps(retention, Run(retention, actions), WithIds(WithKind(event)), now);
  }

  // ---- The archive ----------------------------------------------------------------------

  /** The first pass that pruned a row at a height. */
  ghost predicate FirstPass(history: seq<map<int, Row>>, i: nat, h: int) {
    i < |history| && h in history[i] && forall j | 0 <= j < i :: h !in history[j]
  }

  lemma {:induction false} FirstPassExists(history: seq<map<int, Row>>, i: nat, h: int) returns (first: nat)
    requires i < |history| && h in history[i]
    ensures first <= i && FirstPass(history, first, h)
  {
    if j: nat :| j < i && h in history[j] {
      first := FirstPassExists(history, j, h);
    } else {
      first := i;
    }
  }

  lemma {:induction false} FirstMovedHolds(history: seq<map<int, Row>>, first: nat, h: int)
    requires FirstPass(history, first, h)
    ensures h in FirstMoved(history) && FirstMoved(history)[h] == history[first][h]
  {
    var n := |history| - 1;
    if first < n {
      assert FirstPass(history[..n], first, h);
      FirstMovedHolds(history[..n], first, h);
    } else {
      NothingMoved(history[..n], h);
    }
  }

  lemma {:induction false} NothingMoved(history: seq<map<int, Row>>, h: int)
    requires forall j | 0 <= j < |history| :: h !in history[j]
    ensures h !in FirstMoved(history)
  {
    if history != [] {
      NothingMoved(history[..|history| - 1], h);
    }
  }

  /** Every height ever pruned is in the archive, and a row pruned there is the
      archived one exactly when it equals the row pruned there first. */
  lemma {:induction false} PrunedIsArchived(retention: int, actions: seq<Action>, i: nat, h: int) returns (first: nat)
    requires forall a | a in actions :: PositiveAction(a)
    requires i < |Run(retention, actions).history| && h in Run(retention, actions).history[i]
    ensures var db := Run(retention, actions);
            && h in db.archive && first <= i && FirstPass(db.history, first, h)
            && db.archive[h] == db.history[first][h]
            && (db.history[i][h] == db.archive[h] <==> db.history[i][h] == db.history[first][h])
  {
    hide Run, FirstMoved;
    RunKeeps(retention, actions);
    first := FirstPassExists(Run(retention, actions).history, i, h);
    FirstMovedHolds(Run(retention, actions).history, first, h);
  }

  /** What one pass does to a row it prunes: the archive ends up with it exactly when
      it held nothing at that height, or that same row. */
  lemma PrunedRowIsKeptIff(retention: int, db: Db, h: int)
    requires Prunes(retention, db) && h in db.blocks && h < KeepFrom(retention, db)
    ensures var done := Cleaned(retention, db);
            && h !in done.blocks && h in done.archive
            && (done.archive[h] == db.blocks[h] <==> (h in db.archive ==> db.archive[h] == db.blocks[h]))
  {
  }

  predicate PlainBlock(e: Event, height: int) {
    e.height == height && e.kind == NEW_BLOCK && e.id != "" && e.blockHash != ""
  }

  predicate Differ(a: Event, b: Event) {
    a.id != b.id && a.blockHash != b.blockHash
  }

  predicate TwoForks(a: Event, a2: Event, b: Event, b2: Event) {
    && PlainBlock(a, 1) && PlainBlock(a2, 2) && PlainBlock(b, 1) && PlainBlock(b2, 2)
    && a2.parentHash == a.blockHash && b2.parentHash == b.blockHash
    && Differ(a, a2) && Differ(a, b) && Differ(a2, b) && Differ(b, b2)
  }

  /** Both rows pruned at height 1, the first archived, the second nowhere. */
  ghost predicate SecondRowLost(db: Db, a: Event, b: Event, b2: Event) {
    && RowOf(a) != RowOf(b)
    && db.history == [map[1 := RowOf(a)], map[1 := RowOf(b)]]
    && db.archive == map[1 := RowOf(a)]
    && db.blocks == map[2 := RowOf(b2)]
  }

  /** A row pruned at a height already archived is deleted without a trace: with a
      window of one, run a two-block chain, then a fork of it from height 1. */
  lemma SecondPruneIsLost(a: Event, a2: Event, b: Event, b2: Event)
    requires TwoForks(a, a2, b, b2)
    ensures SecondRowLost(Run(1, [Put(a, 0, true), Put(a2, 0, true), Put(b, 0, true), Put(b2, 0, true)]), a, b, b2)
  {
    FourSteps(1, [Put(a, 0, true), Put(a2, 0, true), Put(b, 0, true), Put(b2, 0, true)]);
    SecondForkStep(a, a2, b, b2);
  }

  lemma SecondForkStep(a: Event, a2: Event, b: Event, b2: Event)
    requires TwoForks(a, a2, b, b2)
    ensures var db2 := Step(1, Step(1, EMPTY_DB, Put(a, 0, true)), Put(a2, 0, true));
            SecondRowLost(Step(1, Step(1, db2, Put(b, 0, true)), Put(b2, 0, true)), a, b, b2)
  {
    hide Step;
    var db1 := Step(1, EMPTY_DB, Put(a, 0, true));
    StartsAtOne(EMPTY_DB, a);
    var db2 := Step(1, db1, Put(a2, 0, true));
    ReplacesOne(db1, RowOf(a), a2);
    var db3 := Step(1, db2, Put(b, 0, true));
    StartsAtOne(db2, b);
    assert map[1 := RowOf(b)] + db3.archive == map[1 := RowOf(a)];
    ReplacesOne(db3, RowOf(b), b2);
  }

  lemma FourSteps(retention: int, actions: seq<Action>)
    requires |actions| == 4
    ensures Run(retention, actions) ==
              Step(retention, Step(retention, Step(retention, Step(retention, EMPTY_DB, actions[0]), actions[1]), actions[2]), actions[3])
  {
    var three, two, one := actions[..3], actions[..2], actions[..1];
    assert three[..2] == two && two[..1] == one && one[..0] == [];
    assert Run(retention, one) == Step(retention, EMPTY_DB, actions[0]);
    assert Run(retention, two) == Step(retention, Run(retention, one), actions[1]);
    assert Run(retention, three) == Step(retention, Run(retention, two), actions[2]);
  }

  /** With a window of one, a block at height 1 replaces whatever was stored. */
  lemma StartsAtOne(db: Db, e: Event)
    requires PlainBlock(e, 1) && StateMatches(db) && !Knows(db.blocks, e.id)
    requires db.blocks == map[] || (2 in db.blocks && db.blocks.Keys == {2})
    ensures var next := Step(1, db, Put(e, 0, true));
            && next.blocks == map[1 := RowOf(e)] && StateMatches(next)
            && next.archive == db.archive && next.history == db.history
  {
    var fork := Pg.RequiresRollback(db, e);
    var cleared := if fork.ForkAt? then Pg.WithRollback(db, CompensatingRecord(fork.from, 0), fork.from) else db;
    assert cleared.blocks == map[];
    InsertedIsTop(cleared, e);
    assert Pg.WithBlock(cleared, e).blocks == map[1 := RowOf(e)];
  }

  /** An Upsert of an unknown block that contradicts nothing. */
  lemma PlainPut(retention: int, db: Db, e: Event, now: int)
    requires e.kind == NEW_BLOCK && e.id != "" && e.blockHash != ""
    requires !Knows(db.blocks, e.id) && Pg.RequiresRollback(db, e) == NoFork && Unique(Pg.WithBlock(db, e).blocks)
    requires ArchiveAccepts(retention, RefreshState(Pg.WithBlock(db, e)))
    ensures Step(retention, db, Put(e, now, true)) ==
              RefreshState(Cleaned(retention, RefreshState(Pg.WithBlock(db, e))))
  {
  }

  /** With a window of one, the next block pushes the one at height 1 out. */
  lemma ReplacesOne(db: Db, row: Row, e: Event)
    requires PlainBlock(e, 2) && e.parentHash == row.blockHash
    requires db.blocks == map[1 := row] && StateMatches(db)
    requires e.id != row.eventId && e.blockHash != row.blockHash
    requires Unique(map[1 := row] + db.archive)
    ensures var next := Step(1, db, Put(e, 0, true));
            && next.blocks == map[2 := RowOf(e)] && StateMatches(next)
            && next.archive == map[1 := row] + db.archive && next.history == db.history + [map[1 := row]]
  {
    hide Pg.UpsertBlock, Cleaned, Step;
    var refreshed := RefreshState(Pg.WithBlock(db, e));
    assert refreshed.blocks == map[1 := row, 2 := RowOf(e)];
    assert refreshed.state.tipHeight == 2 by { InsertedIsTop(db, e); }
    MovesOne(refreshed, row, RowOf(e));
    assert Pg.RequiresRollback(db, e) == NoFork by {
      assert 1 in db.blocks && db.state.tipHeight in db.blocks;
    }
    PlainPut(1, db, e, 0);
    RefreshMatches(Cleaned(1, refreshed));
  }

  lemma MovesOne(db: Db, row: Row, top: Row)
    requires db.blocks == map[1 := row, 2 := top] && db.state.tipHeight == 2
    ensures var done := Cleaned(1, db);
            && (ArchiveAccepts(1, db) <==> Unique(map[1 := row] + db.archive))
            && done.blocks == map[2 := top] && done.archive == map[1 := row] + db.archive
            && done.history == db.history + [map[1 := row]]
  {
    assert RowsBelow(db.blocks, 2) == map[1 := row];
    assert RowsFrom(db.blocks, 2) == map[2 := top];
  }
}
