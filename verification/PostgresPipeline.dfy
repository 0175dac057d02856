/** The indexer process over the relational store: the same producer, queue and
    consumer, with attempts that commit or fail whole, and the maintenance ticker. */
module PostgresPipelines {
  import opened Pipelines
  import opened PostgresTables
  import Pg = PostgresTables

  /** `shell` is the process around the store; its file store stays unused. */
  datatype PgSystem = PgSystem(shell: System, db: Db)

  const PG_INITIAL := PgSystem(INITIAL, EMPTY_DB)

  datatype PgAction =
    | Move(action: Pipelines.Action)
    | TryOnce(now: int, commits: bool)
    | Maintain(commits: bool)
    | RestartAll

  /** The steps that do not concern the store. */
  predicate IsMove(a: Pipelines.Action) {
    a.EmitTick? || a.Publish? || a.Relay? || a.Take?
  }

  ghost function Tried(c: Config, retention: int, y: PgSystem, now: int, commits: bool): PgSystem {
    if y.shell.halted || y.shell.inHand.Nothing? then y
    else
      var (db, outcome) := Pg.Upsert(retention, y.db, y.shell.inHand.event, now, commits);
      PgSystem(Answered(c, y.shell, outcome), db)
  }

  ghost function StepTables(c: Config, retention: int, y: PgSystem, a: PgAction): PgSystem {
    match a
    case Move(action) => if IsMove(action) then y.(shell := Step(c, y.shell, action)) else y
    case TryOnce(now, commits) => Tried(c, retention, y, now, commits)
    case Maintain(commits) => y.(db := RunMaintenance(retention, y.db, commits).0)
    case RestartAll => y.(shell := INITIAL.(dropped := y.shell.dropped))
  }

  ghost function RunTables(c: Config, retention: int, actions: seq<PgAction>): PgSystem {
    if actions == [] then PG_INITIAL
    else StepTables(c, retention, RunTables(c, retention, actions[..|actions| - 1]), actions[|actions| - 1])
  }
}

/** What the process keeps over the relational store. Without retention everything
    proved over the file store carries over by simulation; with retention the exact
    rows are known, and when a restart leaves a trace. */
module PostgresPipelineRuns {
  import opened Events
  import opened EventIndex
  import opened Workers
  import opened Pipelines
  import opened PipelineRuns
  import opened PostgresTables
  import opened BackendSimulation
  import opened PostgresPipelines
  import Pg = PostgresTables
  import File = EventIndex

  // ---- Without retention: the file-store process is mirrored ---------------------------------

  function Over(y: System, s: Store): System {
    y.(store := s)
  }

  /** The process is in a state the file-store laws describe, with `s` as its store. */
  ghost predicate Mirrors(c: Config, y: PgSystem, s: Store, steady: bool) {
    && Related(s, y.db) && Bounded(c, y.shell)
    && LinkInv(c, Over(y.shell, s))
    && (steady ==> ChainInv(c, Over(y.shell, s)))
    && (c.reorgInterval <= 0 ==> RestartInv(c, Over(y.shell, s)))
  }

  lemma MovesIgnoreStore(c: Config, y: System, s: Store, a: Pipelines.Action)
    requires IsMove(a)
    ensures Step(c, Over(y, s), a) == Over(Step(c, y, a), s)
  {
    hide Tick;
  }

  lemma BoundsIgnoreStore(c: Config, y: System, s: Store)
    ensures Bounded(c, Over(y, s)) <==> Bounded(c, y)
  {
  }

  lemma MoveMirrors(c: Config, y: PgSystem, s: Store, steady: bool, a: Pipelines.Action)
    requires Mirrors(c, y, s, steady) && IsMove(a)
    ensures Mirrors(c, y.(shell := Step(c, y.shell, a)), s, steady)
  {
    hide LinkInv, ChainInv, RestartInv, Related, Bounded, Step;
    MovesIgnoreStore(c, y.shell, s, a);
    BoundsIgnoreStore(c, y.shell, s);
    StepKeepsBounded(c, y.shell, a);
    StepKeepsLinkInv(c, Over(y.shell, s), a);
    if steady { MoveKeepsChainInv(c, Over(y.shell, s), a); }
    if c.reorgInterval <= 0 { MoveKeepsRestartInv(c, Over(y.shell, s), a); }
  }

  lemma MoveKeepsChainInv(c: Config, y: System, a: Pipelines.Action)
    requires ChainInv(c, y) && Bounded(c, y) && IsMove(a)
    ensures ChainInv(c, Step(c, y, a))
  {
    hide QueueInv, StoreAt, Tick;
    if y.dropped == 0 {
      MoveKeepsQueue(c, y, a);
    }
  }

  lemma MoveKeepsRestartInv(c: Config, y: System, a: Pipelines.Action)
    requires RestartInv(c, y) && Bounded(c, y) && IsMove(a)
    ensures RestartInv(c, Step(c, y, a))
  {
    hide QueueInv, ChainReaches, Consistent, Tick;
    if y.dropped == 0 {
      MoveKeepsQueue(c, y, a);
    }
  }

  lemma MoveKeepsQueue(c: Config, y: System, a: Pipelines.Action)
    requires QueueInv(c, y) && Bounded(c, y) && IsMove(a)
    ensures QueueInv(c, Step(c, y, a))
  {
    hide QueueInv;
    if a.EmitTick? { TickKeepsQueueInv(c, y); } else { MoveKeepsQueueInv(c, y, a); }
  }

  /** Canonical blocks carry their hash as their ID, so an unseen one cannot repeat a
      stored hash. */
  lemma CanonicalHashIsFree(interval: int, idx: Index, e: Event)
    requires Sound(idx) && CanonicalBlocks(interval, idx.blocks) && Canonical(interval, e)
    ensures !HashTaken(idx, e)
  {
    hide Main, Forked, Late, ReorgHeight, File.RequiresRollback;
    CanonicalIsComplete(interval, e);
    forall h | h in idx.blocks ensures idx.blocks[h].id == idx.blocks[h].blockHash && idx.blocks[h].id in idx.seen {
      CanonicalIsComplete(interval, idx.blocks[h]);
    }
  }

  /** An attempt that does not commit leaves the tables alone and reports a failure. */
  lemma UncommittedFails(retention: int, db: Db, event: Event, now: int)
    ensures Pg.Upsert(retention, db, event, now, false).0 == db && Failed(Pg.Upsert(retention, db, event, now, false).1)
  {
    hide Pg.UpsertBlock, Pg.UpsertRollback;
    RefusalChangesNothing(retention, db, WithIds(WithKind(event)), now);
    RefusalChangesNothing(retention, db, event, now);
  }

  lemma AnswerIgnoresStore(c: Config, y: System, s: Store, outcome: Outcome)
    requires y.inHand.Trying?
    ensures Answered(c, Over(y, s), outcome) == Over(Answered(c, y, outcome), s)
  {
  }

  lemma FailureKeepsLinkInv(c: Config, y: System, outcome: Outcome)
    requires LinkInv(c, y) && y.inHand.Trying? && Failed(outcome)
    ensures LinkInv(c, Answered(c, y, outcome))
  {
    hide Canonical, ProducerAt, Sound, Consistent, CanonicalBlocks, StrictlyLinked;
    assert forall e | e in InFlight(Answered(c, y, outcome)) :: e in InFlight(y);
  }

  lemma FailureKeepsChainInv(c: Config, y: System, outcome: Outcome)
    requires ChainInv(c, y) && y.inHand.Trying? && Failed(outcome)
    ensures ChainInv(c, Answered(c, y, outcome))
  {
    hide QueueInv, StoreAt, Sound;
    if y.dropped == 0 {
      AnswerKeepsQueueInv(c, y, outcome);
    }
  }

  lemma FailureKeepsRestartInv(c: Config, y: System, outcome: Outcome)
    requires RestartInv(c, y) && y.inHand.Trying? && Failed(outcome)
    ensures RestartInv(c, Answered(c, y, outcome))
  {
    hide QueueInv, Consistent, ChainReaches;
    if y.dropped == 0 {
      AnswerKeepsQueueInv(c, y, outcome);
    }
  }

  lemma FailureMirrors(c: Config, y: PgSystem, s: Store, steady: bool, outcome: Outcome)
    requires Mirrors(c, y, s, steady) && y.shell.inHand.Trying? && Failed(outcome)
    ensures Mirrors(c, y.(shell := Answered(c, y.shell, outcome)), s, steady)
  {
    hide Related, Bounded, LinkInv, ChainInv, RestartInv, Answered;
    AnswerIgnoresStore(c, y.shell, s, outcome);
    AttemptIsBounded(c, y.shell, outcome);
    FailureKeepsLinkInv(c, Over(y.shell, s), outcome);
    if steady { FailureKeepsChainInv(c, Over(y.shell, s), outcome); }
    if c.reorgInterval <= 0 { FailureKeepsRestartInv(c, Over(y.shell, s), outcome); }
  }

  lemma AnsweredIsAttempted(c: Config, y: System, s: Store, now: int)
    requires !y.halted && y.inHand.Trying?
    ensures var (t, outcome) := File.Upsert(s, y.inHand.event, now, NO_FAULT);
            Attempted(c, Over(y, s), now, NO_FAULT) == Over(Answered(c, y, outcome), t)
  {
    hide File.Upsert;
  }

  lemma AttemptIsBounded(c: Config, y: System, outcome: Outcome)
    requires Bounded(c, y) && y.inHand.Trying?
    ensures Bounded(c, Answered(c, y, outcome))
  {
  }

  lemma InHandIsCanonical(c: Config, y: System)
    requires LinkInv(c, y) && y.inHand.Trying?
    ensures Canonical(c.reorgInterval, y.inHand.event)
  {
    hide Canonical;
    assert InFlight(y)[0] == y.inHand.event;
  }

  lemma CommitMirrors(c: Config, retention: int, y: PgSystem, s: Store, steady: bool, now: int) returns (t: Store)
    requires Mirrors(c, y, s, steady) && retention <= 0 && !y.shell.halted && y.shell.inHand.Trying?
    ensures Mirrors(c, Tried(c, retention, y, now, true), t, steady)
  {
    var e := y.shell.inHand.event;
    InHandIsCanonical(c, Over(y.shell, s));
    CanonicalIsComplete(c.reorgInterval, e);
    CanonicalHashIsFree(c.reorgInterval, s.index, e);
    hide LinkInv, ChainInv, RestartInv, Related, Bounded, Attempted, Answered, File.Upsert, Pg.Upsert, HashTaken, Canonical;
    StepSimulates(retention, s, y.db, e, now);
    t := File.Upsert(s, e, now, NO_FAULT).0;
    AnsweredIsAttempted(c, y.shell, s, now);
    AttemptKeepsLinkInv(c, Over(y.shell, s), now, NO_FAULT);
    if steady { AttemptKeepsChainInv(c, Over(y.shell, s), now, NO_FAULT); }
    if c.reorgInterval <= 0 { AttemptKeepsRestartInv(c, Over(y.shell, s), now, NO_FAULT); }
    AttemptIsBounded(c, y.shell, File.Upsert(s, e, now, NO_FAULT).1);
  }

  lemma MaintenanceMirrors(retention: int, s: Store, db: Db, commits: bool)
    requires Related(s, db) && retention <= 0
    ensures RunMaintenance(retention, db, commits).0 == db
  {
    RefreshTwice(retention, db);
    RelatedState(s.index, db);
  }

  lemma RestartMirrors(c: Config, y: PgSystem, s: Store)
    requires Mirrors(c, y, s, false)
    ensures Mirrors(c, y.(shell := INITIAL.(dropped := y.shell.dropped)), s, false)
  {
    hide Related, StoreAt, ChainReaches, Replay, GoodLog, Sound, CanonicalBlocks, StrictlyLinked;
    var z := Over(y.shell, s);
    RestartKeepsLinkInv(c, z);
    assert Restarted(z) == Over(INITIAL.(dropped := y.shell.dropped), s);
    if c.reorgInterval <= 0 {
      RestartKeepsRestartInv(c, z);
    }
  }

  lemma RestartKeepsRestartInv(c: Config, y: System)
    requires RestartInv(c, y)
    ensures RestartInv(c, Restarted(y))
  {
    hide Sound;
    InitialChain(c);
  }

  lemma {:induction false} MirrorExists(c: Config, retention: int, actions: seq<PgAction>) returns (s: Store)
    requires retention <= 0
    ensures Mirrors(c, RunTables(c, retention, actions), s, RestartAll !in actions)
  {
    hide Mirrors, Tried, RunMaintenance;
    if actions == [] {
      s := EMPTY_STORE;
      InitialMirrors(c);
    } else {
      var before := actions[..|actions| - 1];
      var y, steady := RunTables(c, retention, before), RestartAll !in actions;
      assert RestartAll in before ==> RestartAll in actions;
      s := MirrorExists(c, retention, before);
      Unsteady(c, y, s, RestartAll !in before, steady);
      match actions[|actions| - 1]
      case Move(a) =>
        if IsMove(a) { MoveMirrors(c, y, s, steady, a); }
      case TryOnce(now, commits) => s := TryMirrors(c, retention, y, s, steady, now, commits);
      case Maintain(commits) =>
        MirrorIsRelated(c, y, s, steady);
        MaintenanceMirrors(retention, s, y.db, commits);
      case RestartAll =>
        assert RestartAll in actions;
        RestartMirrors(c, y, s);
    }
  }

  lemma Unsteady(c: Config, y: PgSystem, s: Store, before: bool, after: bool)
    requires Mirrors(c, y, s, before) && (after ==> before)
    ensures Mirrors(c, y, s, after)
  {
    hide Related, Bounded, LinkInv, ChainInv, RestartInv;
  }

  lemma MirrorIsRelated(c: Config, y: PgSystem, s: Store, steady: bool)
    requires Mirrors(c, y, s, steady)
    ensures Related(s, y.db)
  {
    hide Related, Bounded, LinkInv, ChainInv, RestartInv;
  }

  lemma TryMirrors(c: Config, retention: int, y: PgSystem, s: Store, steady: bool, now: int, commits: bool) returns (t: Store)
    requires Mirrors(c, y, s, steady) && retention <= 0
    ensures Mirrors(c, Tried(c, retention, y, now, commits), t, steady)
  {
    hide Mirrors, Pg.Upsert;
    t := s;
    if !y.shell.halted && y.shell.inHand.Trying? {
      if commits {
        t := CommitMirrors(c, retention, y, s, steady, now);
      } else {
        UncommittedFails(retention, y.db, y.shell.inHand.event, now);
        FailureMirrors(c, y, s, steady, Pg.Upsert(retention, y.db, y.shell.inHand.event, now, false).1);
      }
    }
  }

  lemma InitialMirrors(c: Config)
    ensures Mirrors(c, PG_INITIAL, EMPTY_STORE, true)
  {
    EmptyRelated();
    InitialChain(c);
    LinkInvAlways(c, []);
    RestartInitially(c);
  }

  lemma RestartInitially(c: Config)
    ensures c.reorgInterval <= 0 ==> RestartInv(c, INITIAL)
  {
    if c.reorgInterval <= 0 {
      RestartInvAlways(c, []);
    }
  }

  /** Linkage over the relational store: for any interval, interleaving, failing
      transactions, drops and restarts, rows at adjacent heights are linked by hash. */
  lemma StoredRowsAreLinked(c: Config, retention: int, actions: seq<PgAction>)
    requires retention <= 0
    ensures var rows := RunTables(c, retention, actions).db.blocks;
            forall h | h in rows && h + 1 in rows :: rows[h + 1].parentHash == rows[h].blockHash
  {
    hide RunTables;
    var s := MirrorExists(c, retention, actions);
    var blocks := s.index.blocks;
    forall h | h in blocks && h + 1 in blocks ensures blocks[h + 1].parentHash == blocks[h].blockHash {
      assert h + 1 - 1 in blocks;
    }
  }

  /** Without drops and restarts the stored heights are exactly 1 to the tip, and at
      most one reorg is counted. */
  lemma StoredRowsAreExact(c: Config, retention: int, actions: seq<PgAction>)
    requires retention <= 0 && RestartAll !in actions && RunTables(c, retention, actions).shell.dropped == 0
    ensures var db := RunTables(c, retention, actions).db;
            (forall h :: h in db.blocks <==> 1 <= h <= db.state.tipHeight) && db.state.reorgs <= 1
  {
    hide RunTables, StoreAt, LinkInv, RestartInv, Sound;
    var s := MirrorExists(c, retention, actions);
    StageHeights(c.reorgInterval, s.index, RunTables(c, retention, actions).shell.consumed);
  }

  /** Restarts are transparent over the relational store without retention. */
  lemma RestartsAreTransparentInTables(c: Config, retention: int, actions: seq<PgAction>)
    requires retention <= 0 && c.reorgInterval <= 0 && RunTables(c, retention, actions).shell.dropped == 0
    ensures var db := RunTables(c, retention, actions).db;
            db.blocks == Rows(MainChain(db.state.tipHeight)) && db.state.reorgs == 0
  {
    hide RunTables, LinkInv, ChainInv, Sound, Rows;
    var s := MirrorExists(c, retention, actions);
  }
}
