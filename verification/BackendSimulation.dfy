/** The file store and the relational store with retention off answer alike:
    forward simulation, step by step and over whole sequences of events. */
module BackendSimulation {
  import opened Events
  import opened EventIndex
  import opened PostgresTables
  import opened Retention
  import File = EventIndex
  import Pg = PostgresTables

  ghost function Rows(blocks: map<int, Event>): map<int, Row> {
    map h | h in blocks :: RowOf(blocks[h])
  }

  /** Same chain, same state row, same log. */
  ghost predicate Related(s: Store, db: Db) {
    && Sound(s.index)
    && db.blocks == Rows(s.index.blocks) && Unique(db.blocks)
    && db.state == State(s.index)
    && db.log == s.log
  }

  /** The blocks left once the event's own rollback, if any, has been made. */
  ghost function Survivors(idx: Index, e: Event): map<int, Event> {
    match File.RequiresRollback(idx, e)
    case NoFork => idx.blocks
    case ForkAt(from) => Below(idx.blocks, from)
  }

  /** The event repeats the block hash of a block that stays stored. */
  ghost predicate HashTaken(idx: Index, e: Event) {
    e.id !in idx.seen && exists h :: h in Survivors(idx, e) && Survivors(idx, e)[h].blockHash == e.blockHash
  }

  lemma EmptyRelated()
    ensures Related(EMPTY_STORE, EMPTY_DB)
  {
    assert Ids(EMPTY.blocks) == {};
  }

  lemma SameDuplicates(s: Store, db: Db, id: string)
    requires Related(s, db)
    ensures Knows(db.blocks, id) <==> id in s.index.seen
  {
    if id in s.index.seen {
      var h :| h in s.index.blocks && s.index.blocks[h].id == id;
      assert db.blocks[h].eventId == id;
    }
  }

  lemma SameForks(s: Store, db: Db, e: Event)
    requires Related(s, db) && e.height >= 1
    ensures Pg.RequiresRollback(db, e) == File.RequiresRollback(s.index, e)
  {
  }

  lemma RelatedRollback(s: Store, db: Db, record: Event, from: int)
    requires Related(s, db) && from >= 1
    ensures Related(File.WithRollback(s, record, from), RefreshState(Pg.WithRollback(db, record, from)))
  {
    var t := File.WithRollback(s, record, from);
    var d := Pg.WithRollback(db, record, from);
    assert d.blocks == Rows(t.index.blocks);
    assert Unique(d.blocks);
    hide Unique, WellKeyed;
    RollbackKeepsInv(s.index, from);
    RelatedState(t.index, d);
  }

  /** Refreshing the state row reads off exactly the incremental state. */
  lemma RelatedState(idx: Index, db: Db)
    requires Sound(idx) && db.blocks == Rows(idx.blocks) && db.state.reorgs == idx.reorgs
    ensures RefreshState(db).state == State(idx)
  {
    assert db.blocks.Keys == idx.blocks.Keys;
    TopRowUnique(db.blocks, idx.tipHeight, idx.tipHash);
    IdsCount(idx.blocks);
  }

  /** What an insert needs of the two stores: the same chain and log, with the
      event unseen and above the tip. The state row may be stale. */
  ghost predicate ReadyToInsert(s: Store, db: Db, e: Event) {
    && Sound(s.index)
    && db.blocks == Rows(s.index.blocks) && Unique(db.blocks)
    && db.state.reorgs == s.index.reorgs && db.log == s.log
    && e.kind != ROLLBACK && e.height >= 1 && Admissible(s.index, e)
  }

  ghost predicate CarriesHash(blocks: map<int, Event>, hash: string) {
    exists h :: h in blocks && blocks[h].blockHash == hash
  }

  lemma InsertIsUnique(s: Store, db: Db, e: Event)
    requires ReadyToInsert(s, db, e)
    ensures e.height !in db.blocks
    ensures Unique(Pg.WithBlock(db, e).blocks) <==> !CarriesHash(s.index.blocks, e.blockHash)
  {
    var rows := Pg.WithBlock(db, e).blocks;
    assert e.height !in s.index.blocks;
    assert forall h | h in s.index.blocks :: rows[h] == RowOf(s.index.blocks[h]);
    assert rows[e.height] == RowOf(e);
    forall h | h in s.index.blocks ensures s.index.blocks[h].id != e.id {
      assert s.index.blocks[h].id in Ids(s.index.blocks);
    }
  }

  lemma InsertIsRelated(s: Store, db: Db, e: Event)
    requires ReadyToInsert(s, db, e) && Unique(Pg.WithBlock(db, e).blocks)
    ensures Related(File.WithBlock(s, e), RefreshState(Pg.WithBlock(db, e)))
  {
    var t := File.WithBlock(s, e);
    var d := Pg.WithBlock(db, e);
    assert Sound(t.index) by { ApplyKeepsInv(s.index, e); }
    assert d.blocks == Rows(t.index.blocks);
    RelatedState(t.index, d);
  }

  /** From a ready pair on, the relational store inserts, refreshes and cleans up. */
  lemma InsertStep(retention: int, s: Store, db: Db, e: Event)
    requires ReadyToInsert(s, db, e) && retention <= 0
    ensures var rows := Pg.WithBlock(db, e);
            && ArchiveAccepts(retention, RefreshState(rows))
            && (Unique(rows.blocks) <==> !CarriesHash(s.index.blocks, e.blockHash))
            && (Unique(rows.blocks) ==>
                  Related(File.WithBlock(s, e), RefreshState(Cleaned(retention, RefreshState(rows)))))
  {
    InsertIsUnique(s, db, e);
    RefreshTwice(retention, Pg.WithBlock(db, e));
    if Unique(Pg.WithBlock(db, e).blocks) {
      InsertIsRelated(s, db, e);
    }
  }

  lemma ReadyWithoutFork(s: Store, db: Db, e: Event)
    requires Related(s, db) && e.kind != ROLLBACK && e.id != "" && e.blockHash != "" && e.height >= 1
    requires e.id !in s.index.seen && File.RequiresRollback(s.index, e).NoFork?
    ensures ReadyToInsert(s, db, e)
  {
    ForkClearsTheWay(s.index, e);
  }

  lemma ReadyAfterFork(s: Store, db: Db, e: Event, now: int)
    requires Related(s, db) && e.kind != ROLLBACK && e.id != "" && e.blockHash != "" && e.height >= 1
    requires e.id !in s.index.seen && File.RequiresRollback(s.index, e).ForkAt?
    ensures var from := File.RequiresRollback(s.index, e).from;
            var record := CompensatingRecord(from, now);
            ReadyToInsert(File.WithRollback(s, record, from), Pg.WithRollback(db, record, from), e)
  {
    var from := File.RequiresRollback(s.index, e).from;
    ForkClearsTheWay(s.index, e);
    ForkPointIsPositive(s.index, e);
    RelatedRollback(s, db, CompensatingRecord(from, now), from);
  }

  lemma BlockStep(retention: int, s: Store, db: Db, e: Event, now: int)
    requires Related(s, db) && retention <= 0
    requires e.kind != ROLLBACK && e.id != "" && e.blockHash != "" && e.height >= 1
    ensures var f := File.UpsertBlock(s, e, now, NO_FAULT);
            var p := Pg.UpsertBlock(retention, db, e, now);
            if HashTaken(s.index, e) then f.1 == Created && p == (db, StorageFailed)
            else f.1 == p.1 && Related(f.0, p.0)
  {
    SameDuplicates(s, db, e.id);
    SameForks(s, db, e);
    if e.id !in s.index.seen {
      assert HashTaken(s.index, e) <==> CarriesHash(Survivors(s.index, e), e.blockHash);
      match File.RequiresRollback(s.index, e)
      case NoFork =>
        ReadyWithoutFork(s, db, e);
        InsertStep(retention, s, db, e);
      case ForkAt(from) =>
        ForkPointIsPositive(s.index, e);
        ReadyAfterFork(s, db, e, now);
        var record := CompensatingRecord(from, now);
        InsertStep(retention, File.WithRollback(s, record, from), Pg.WithRollback(db, record, from), e);
    }
  }

  lemma RefreshTwice(retention: int, db: Db)
    requires retention <= 0
    ensures ArchiveAccepts(retention, RefreshState(db))
    ensures RefreshState(Cleaned(retention, RefreshState(db))) == RefreshState(db)
  {
  }

  /** One event with no storage faults: both stores give the same answer and stay
      related, unless the event repeats the block hash of a block that stays
      stored; then the file accepts it and the UNIQUE column refuses it. */
  lemma StepSimulates(retention: int, s: Store, db: Db, event: Event, now: int)
    requires Related(s, db) && retention <= 0 && (IsBlock(event) ==> event.height >= 1)
    ensures var f := File.Upsert(s, event, now, NO_FAULT);
            var p := Pg.Upsert(retention, db, event, now, true);
            (f.1 == p.1 && Related(f.0, p.0)) <==>
              !(IsBlock(event) && HashTaken(s.index, WithIds(WithKind(event))))
  {
    if IsBlock(event) {
      BlockStep(retention, s, db, WithIds(WithKind(event)), now);
    } else if event.rollbackFrom > 0 {
      RelatedRollback(s, db, RequestedRecord(event, now), event.rollbackFrom);
    }
  }

  /** In a fault-free run the insert never finds its height taken, so the
      ON CONFLICT(height) DO UPDATE arm never fires. */
  lemma UpdateArmNeverFires(retention: int, actions: seq<Retention.Action>, event: Event, now: int)
    requires (forall a | a in actions :: PositiveAction(a)) && IsBlock(event) && event.height >= 1
    ensures var db := Retention.Run(retention, actions);
            var e := WithIds(WithKind(event));
            var fork := Pg.RequiresRollback(db, e);
            e.height !in (if fork.ForkAt? then Pg.WithRollback(db, CompensatingRecord(fork.from, now), fork.from) else db).blocks
  {
    RunKeeps(retention, actions);
    InsertGoesOnTop(retention, Retention.Run(retention, actions), WithIds(WithKind(event)));
  }

  // ---- Whole sequences ------------------------------------------------------------------

  datatype Delivery = Delivery(event: Event, now: int)

  ghost function FileRun(events: seq<Delivery>): Store {
    if events == [] then EMPTY_STORE
    else
      var d := events[|events| - 1];
      File.Upsert(FileRun(events[..|events| - 1]), d.event, d.now, NO_FAULT).0
  }

  ghost function PgRun(retention: int, events: seq<Delivery>): Db {
    if events == [] then EMPTY_DB
    else
      var d := events[|events| - 1];
      Pg.Upsert(retention, PgRun(retention, events[..|events| - 1]), d.event, d.now, true).0
  }

  /** Block heights are positive and a block hash names one height. */
  ghost predicate HashNamesHeight(events: seq<Delivery>) {
    && (forall d | d in events && IsBlock(d.event) :: d.event.height >= 1)
    && (forall c, d | c in events && d in events && IsBlock(c.event) && IsBlock(d.event)
                      && WithIds(c.event).blockHash == WithIds(d.event).blockHash :: c.event.height == d.event.height)
  }

  /** A delivered event gave the block at this height its hash. */
  ghost predicate Delivered(h: int, hash: string, events: seq<Delivery>) {
    exists d :: d in events && IsBlock(d.event) && d.event.height == h && WithIds(d.event).blockHash == hash
  }

  /** Every stored block came from some delivered event. */
  ghost predicate FromEvents(blocks: map<int, Event>, events: seq<Delivery>) {
    forall h | h in blocks :: Delivered(h, blocks[h].blockHash, events)
  }

  lemma DeliveredStays(h: int, hash: string, events: seq<Delivery>, d: Delivery)
    requires Delivered(h, hash, events)
    ensures Delivered(h, hash, events + [d])
  {
    var c :| c in events && IsBlock(c.event) && c.event.height == h && WithIds(c.event).blockHash == hash;
    assert c in events + [d];
  }

  lemma JustDelivered(events: seq<Delivery>, d: Delivery)
    requires IsBlock(d.event)
    ensures Delivered(d.event.height, WithIds(WithKind(d.event)).blockHash, events + [d])
  {
    assert d in events + [d];
  }

  /** An Upsert adds no block but the one delivered. */
  lemma UpsertAddsAtMost(s: Store, event: Event, now: int)
    ensures var after := File.Upsert(s, event, now, NO_FAULT).0.index.blocks;
            var e := WithIds(WithKind(event));
            forall h | h in after :: (h in s.index.blocks && after[h] == s.index.blocks[h])
                                     || (IsBlock(event) && h == e.height && after[h] == e)
  {
  }

  lemma FromEventsStep(s: Store, events: seq<Delivery>, d: Delivery)
    requires FromEvents(s.index.blocks, events)
    ensures FromEvents(File.Upsert(s, d.event, d.now, NO_FAULT).0.index.blocks, events + [d])
  {
    hide Delivered, File.Upsert, Below;
    var after := File.Upsert(s, d.event, d.now, NO_FAULT).0.index.blocks;
    UpsertAddsAtMost(s, d.event, d.now);
    forall h | h in after ensures Delivered(h, after[h].blockHash, events + [d]) {
      if h in s.index.blocks && after[h] == s.index.blocks[h] {
        DeliveredStays(h, after[h].blockHash, events, d);
      } else {
        JustDelivered(events, d);
      }
    }
  }

  /** The same answer (created flag or error) and the same state after every event
      of every sequence in which a block hash names one height. */
  lemma {:induction false} RunsSimulate(retention: int, events: seq<Delivery>)
    requires retention <= 0 && HashNamesHeight(events)
    ensures Related(FileRun(events), PgRun(retention, events))
    ensures FromEvents(FileRun(events).index.blocks, events)
    ensures State(FileRun(events).index) == PgRun(retention, events).state
  {
    if events == [] {
      EmptyRelated();
    } else {
      var n := |events| - 1;
      var d := events[n];
      assert events == events[..n] + [d];
      assert forall c | c in events[..n] :: c in events;
      RunsSimulate(retention, events[..n]);
      AnswersAgree(retention, events[..n], d);
      FromEventsStep(FileRun(events[..n]), events[..n], d);
    }
  }

  /** After such a sequence the next event gets the same answer from both stores. */
  lemma AnswersAgree(retention: int, events: seq<Delivery>, d: Delivery)
    requires retention <= 0 && HashNamesHeight(events + [d])
    requires Related(FileRun(events), PgRun(retention, events)) && FromEvents(FileRun(events).index.blocks, events)
    ensures var f := File.Upsert(FileRun(events), d.event, d.now, NO_FAULT);
            var p := Pg.Upsert(retention, PgRun(retention, events), d.event, d.now, true);
            f.1 == p.1 && Related(f.0, p.0)
  {
    assert d in events + [d];
    StepSimulates(retention, FileRun(events), PgRun(retention, events), d.event, d.now);
    if IsBlock(d.event) {
      NoHashTaken(FileRun(events).index, events, d);
    }
  }

  lemma NoHashTaken(idx: Index, events: seq<Delivery>, d: Delivery)
    requires Inv(idx) && FromEvents(idx.blocks, events) && HashNamesHeight(events + [d]) && IsBlock(d.event)
    ensures !HashTaken(idx, WithIds(WithKind(d.event)))
  {
    var e := WithIds(WithKind(d.event));
    assert d in events + [d];
    ForkClearsTheWay(idx, e);
    forall h | h in Survivors(idx, e) ensures Survivors(idx, e)[h].blockHash != e.blockHash {
      assert h < e.height;
      var c :| c in events && IsBlock(c.event) && c.event.height == h && WithIds(c.event).blockHash == idx.blocks[h].blockHash;
      assert c in events + [d];
    }
  }

  /** The forward simulation read off one sequence: event by event, both backends
      return the same created flag or error, report the same tip, total and reorg
      count, and have logged the same records. */
  lemma {:induction false} BackendsAgree(retention: int, events: seq<Delivery>, n: nat)
    requires retention <= 0 && HashNamesHeight(events) && n < |events|
    ensures var d := events[n];
            File.Upsert(FileRun(events[..n]), d.event, d.now, NO_FAULT).1
            == Pg.Upsert(retention, PgRun(retention, events[..n]), d.event, d.now, true).1
    ensures State(FileRun(events[..n + 1]).index) == PgRun(retention, events[..n + 1]).state
    ensures FileRun(events[..n + 1]).log == PgRun(retention, events[..n + 1]).log
  {
    assert forall d | d in events[..n + 1] :: d in events;
    assert events[..n + 1][..n] == events[..n];
    assert events[..n + 1] == events[..n] + [events[n]];
    RunsSimulate(retention, events[..n]);
    RunsSimulate(retention, events[..n + 1]);
    AnswersAgree(retention, events[..n], events[n]);
  }
}
