/** Whole runs of a FileEventStore: any events, any failing appends, any restarts. */
module StoreRuns {
  import opened Events
  import opened EventIndex

  datatype Action =
    | Put(event: Event, now: int, io: Appends)
    | Restart

  ghost function Step(s: Store, a: Action): Store {
    match a
    case Put(event, now, io) => Upsert(s, event, now, io).0
    case Restart => Store(Replay(s.log), s.log)
  }

  ghost function Run(actions: seq<Action>): Store {
    if actions == [] then EMPTY_STORE else Step(Run(actions[..|actions| - 1]), actions[|actions| - 1])
  }

  ghost predicate PositiveHeights(actions: seq<Action>) {
    forall a | a in actions && a.Put? && IsBlock(a.event) :: a.event.height >= 1
  }

  ghost predicate PositiveLog(log: seq<Event>) {
    forall r | r in log :: r.kind == ROLLBACK || r.height >= 1
  }

  // ---- Crash consistency and the invariant over all runs -----------------------------

  lemma UpsertKeepsPositiveLog(s: Store, event: Event, now: int, io: Appends)
    requires PositiveLog(s.log) && (IsBlock(event) ==> event.height >= 1)
    ensures PositiveLog(Upsert(s, event, now, io).0.log)
  {
  }

  lemma StepIsConsistent(s: Store, a: Action)
    requires Consistent(s)
    ensures Consistent(Step(s, a))
  {
    if a.Put? {
      UpsertStaysConsistent(s, a.event, a.now, a.io);
    }
  }

  lemma {:induction false} RunIsConsistent(actions: seq<Action>)
    ensures Consistent(Run(actions))
    ensures PositiveHeights(actions) ==> PositiveLog(Run(actions).log)
  {
    if actions != [] {
      var n := |actions| - 1;
      RunIsConsistent(actions[..n]);
      StepIsConsistent(Run(actions[..n]), actions[n]);
      if PositiveHeights(actions) {
        assert forall a | a in actions[..n] :: a in actions;
        assert actions[n] in actions;
        if actions[n].Put? {
          UpsertKeepsPositiveLog(Run(actions[..n]), actions[n].event, actions[n].now, actions[n].io);
        }
      }
    }
  }

  /** At every return the index in memory is the one a restart reads back, and
      every prefix of the log (what a crash between two appends leaves behind)
      reads back as an index that satisfies the invariant. */
  lemma {:induction false} CrashConsistency(actions: seq<Action>)
    ensures Run(actions).index == Replay(Run(actions).log)
    ensures forall k | 0 <= k <= |Run(actions).log| :: Inv(Replay(Run(actions).log[..k]))
    ensures PositiveHeights(actions) ==>
              forall k | 0 <= k <= |Run(actions).log| :: Sound(Replay(Run(actions).log[..k]))
  {
    RunIsConsistent(actions);
    var log := Run(actions).log;
    forall k | 0 <= k <= |log|
      ensures Inv(Replay(log[..k]))
      ensures PositiveHeights(actions) ==> Sound(Replay(log[..k]))
    {
      GoodLogPrefix(log, k);
      assert forall r | r in log[..k] :: r in log;
      GoodLogInv(log[..k]);
    }
  }

  /** The store invariant over all runs with positive heights: `seen` is exactly
      the set of stored IDs, no ID is stored twice, the tip is the highest stored
      block, and the reported total is the number of stored blocks. */
  lemma StoreInvariant(actions: seq<Action>)
    requires PositiveHeights(actions)
    ensures var idx := Run(actions).index;
            && idx.seen == Ids(idx.blocks)
            && (forall h, k | h in idx.blocks && k in idx.blocks && h != k :: idx.blocks[h].id != idx.blocks[k].id)
            && IsTip(idx.blocks, idx.tipHeight, idx.tipHash)
            && State(idx).total == |idx.blocks|
  {
    CrashConsistency(actions);
    var s := Run(actions);
    assert s.log[..|s.log|] == s.log;
    SoundTotal(s.index);
  }

  lemma SoundTotal(idx: Index)
    requires Inv(idx) && Exact(idx)
    ensures State(idx).total == |idx.blocks|
  {
    IdsCount(idx.blocks);
  }

  /** Where the invariant stops: an accepted event keeps `seen` exact unless its
      height is not positive and already taken. */
  lemma SeenStaysExactUnless(s: Store, event: Event, now: int)
    requires Inv(s.index) && Exact(s.index) && IsBlock(event)
    requires Upsert(s, event, now, NO_FAULT).1 == Created
    ensures Exact(Upsert(s, event, now, NO_FAULT).0.index) <==>
              !(event.height <= 0 && event.height in s.index.blocks)
  {
    var e := WithIds(WithKind(event));
    ForkClearsTheWay(s.index, e);
    match RequiresRollback(s.index, e)
    case NoFork =>
      ApplyBlockKeepsInv(s.index, e);
    case ForkAt(from) =>
      ForkPointIsPositive(s.index, e);
      RollbackKeepsInv(s.index, from);
      var rolled := WithRollback(s, CompensatingRecord(from, now), from);
      assert Inv(rolled.index) && Exact(rolled.index);
      ApplyBlockKeepsInv(rolled.index, e);
  }

  /** Two blocks at height 0: the first one's ID outlives the block. */
  lemma StaleIdAtHeightZero()
    ensures var a := Event("a", 0, NEW_BLOCK, "a", "", 0, "");
            var b := Event("b", 0, NEW_BLOCK, "b", "", 0, "");
            var idx := Run([Put(a, 0, NO_FAULT), Put(b, 0, NO_FAULT)]).index;
            idx.blocks == map[0 := b] && idx.seen == {"a", "b"}
  {
    var a := Event("a", 0, NEW_BLOCK, "a", "", 0, "");
    var b := Event("b", 0, NEW_BLOCK, "b", "", 0, "");
    var one := Upsert(EMPTY_STORE, a, 0, NO_FAULT).0;
    assert one.index == Index(map[0 := a], {"a"}, 0, "a", 0);
    assert Run([Put(a, 0, NO_FAULT)]) == one by {
      assert [Put(a, 0, NO_FAULT)][..0] == [];
    }
    var actions := [Put(a, 0, NO_FAULT), Put(b, 0, NO_FAULT)];
    assert actions[..1] == [Put(a, 0, NO_FAULT)];
    assert "b"[0] != "a"[0];
    assert Upsert(one, b, 0, NO_FAULT).0.index == Index(map[0 := b], {"a", "b"}, 0, "b", 0);
  }

  /** An accepted block is stored as delivered and becomes the tip exactly when
      its height is positive, or 0 while nothing higher is stored. */
  lemma AcceptedBecomesTip(s: Store, event: Event, now: int, io: Appends)
    requires Inv(s.index) && IsBlock(event)
    requires Upsert(s, event, now, io).1 == Created
    ensures var e := WithIds(WithKind(event));
            var idx := Upsert(s, event, now, io).0.index;
            && e.height in idx.blocks && idx.blocks[e.height] == e && e.id in idx.seen
            && ((idx.tipHeight == e.height && idx.tipHash == e.blockHash) <==>
                (e.height >= 1 || (e.height == 0 && s.index.tipHeight == 0)))
  {
    var e := WithIds(WithKind(event));
    ForkClearsTheWay(s.index, e);
  }

  // ---- Linkage -----------------------------------------------------------------------

  ghost predicate ParentAgrees(parentHash: string, below: Event) {
    parentHash == "" || parentHash == below.blockHash
  }

  ghost predicate Linked(blocks: map<int, Event>) {
    forall h | h in blocks && h - 1 in blocks :: ParentAgrees(blocks[h].parentHash, blocks[h - 1])
  }

  /** An accepted event keeps adjacent blocks hash-linked exactly when it lies
      above the tip, or no block is stored right below it, or its parent hash does
      not contradict that block. */
  lemma LinkageStep(s: Store, event: Event, now: int)
    requires Sound(s.index) && Linked(s.index.blocks)
    requires IsBlock(event) && event.height >= 1
    requires Upsert(s, event, now, NO_FAULT).1 == Created
    ensures Linked(Upsert(s, event, now, NO_FAULT).0.index.blocks) <==>
              (event.height > s.index.tipHeight
               || event.height - 1 !in s.index.blocks
               || ParentAgrees(event.parentHash, s.index.blocks[event.height - 1]))
  {
    hide Upsert, Linked, RequiresRollback;
    var e := WithIds(WithKind(event));
    var cut := AcceptedBlocks(s, event, now);
    PuttingOnTop(s.index.blocks, cut, e);
  }

  /** What an accepted event leaves: the blocks below some cut, and the event. */
  lemma AcceptedBlocks(s: Store, event: Event, now: int) returns (cut: int)
    requires Sound(s.index) && IsBlock(event) && event.height >= 1
    requires Upsert(s, event, now, NO_FAULT).1 == Created
    ensures var e := WithIds(WithKind(event));
            && cut <= e.height
            && Upsert(s, event, now, NO_FAULT).0.index.blocks == Below(s.index.blocks, cut)[e.height := e]
            && (e.height > s.index.tipHeight && e.height - 1 in Below(s.index.blocks, cut) ==>
                  ParentAgrees(e.parentHash, s.index.blocks[e.height - 1]))
            && (e.height <= s.index.tipHeight ==> cut == e.height)
  {
    hide Upsert;
    var e := WithIds(WithKind(event));
    ForkClearsTheWay(s.index, e);
    if e.id in s.index.seen {
      UpsertKnown(s, event, now, NO_FAULT);
    }
    match RequiresRollback(s.index, e)
    case NoFork =>
      cut := e.height;
      UpsertOnTop(s, event, now, NO_FAULT);
      assert Below(s.index.blocks, cut) == s.index.blocks;
    case ForkAt(from) =>
      cut := from;
      UpsertForking(s, event, now, NO_FAULT);
  }

  /** Cutting a linked chain and putting one block above the cut. */
  lemma PuttingOnTop(blocks: map<int, Event>, from: int, e: Event)
    requires Linked(blocks) && from <= e.height
    ensures Linked(Below(blocks, from)[e.height := e]) <==>
              (e.height - 1 !in Below(blocks, from) || ParentAgrees(e.parentHash, blocks[e.height - 1]))
  {
    var after := Below(blocks, from)[e.height := e];
    assert forall h | h in after && h != e.height :: h < from && h in blocks && after[h] == blocks[h];
    assert after[e.height] == e;
    if e.height - 1 in Below(blocks, from) {
      assert e.height - 1 in after;
    }
  }

  /** A rollback that is not followed by its block cannot break linkage. */
  lemma RollbackKeepsLinkage(s: Store, event: Event, now: int, io: Appends)
    requires Linked(s.index.blocks)
    requires Upsert(s, event, now, io).1 != Created || !IsBlock(event)
    ensures Linked(Upsert(s, event, now, io).0.index.blocks)
  {
  }

  // ---- Retrying a failed Upsert -------------------------------------------------------

  datatype Try = Try(now: int, io: Appends)

  /** The store after a series of attempts at one event. */
  ghost function Attempts(s: Store, event: Event, tries: seq<Try>): Store {
    if tries == [] then s
    else
      var n := |tries| - 1;
      Upsert(Attempts(s, event, tries[..n]), event, tries[n].now, tries[n].io).0
  }

  ghost predicate AllFail(s: Store, event: Event, tries: seq<Try>) {
    forall n | 0 <= n < |tries| ::
      Failed(Upsert(Attempts(s, event, tries[..n]), event, tries[n].now, tries[n].io).1)
  }

  /** The parent hash does not contradict the highest block stored below the point
      the event would roll back to. */
  ghost predicate Settled(idx: Index, e: Event) {
    match RequiresRollback(idx, e)
    case NoFork => true
    case ForkAt(from) =>
      var below := Below(idx.blocks, from);
      e.parentHash == "" || TipHeight(below) <= 0 || TipHash(below) == e.parentHash
  }

  lemma SettledMeansOneRollback(idx: Index, e: Event)
    requires Inv(idx) && RequiresRollback(idx, e).ForkAt?
    ensures var rolled := Rollback(idx, RequiresRollback(idx, e).from);
            RequiresRollback(rolled, e).NoFork? <==> Settled(idx, e)
  {
    var from := RequiresRollback(idx, e).from;
    ForkClearsTheWay(idx, e);
    RollbackKeepsInv(idx, from);
    var rolled := Rollback(idx, from);
    if rolled.tipHeight > 0 {
      assert rolled.tipHash != "";
    }
  }

  /** The index right after an event's rollback. */
  ghost function RolledFor(idx: Index, from: int): Index {
    Rollback(idx, from).(reorgs := idx.reorgs + 1)
  }

  /** While attempts fail, the index is the one before them or the one right after
      the single rollback. */
  ghost predicate Stalled(start: Index, e: Event, idx: Index) {
    idx == start
    || (RequiresRollback(start, e).ForkAt? && e.id !in start.seen && idx == RolledFor(start, RequiresRollback(start, e).from))
  }

  lemma FailureStalls(start: Index, s: Store, event: Event, now: int, io: Appends)
    requires Inv(start) && IsBlock(event) && Settled(start, WithIds(WithKind(event)))
    requires Stalled(start, WithIds(WithKind(event)), s.index) && Failed(Upsert(s, event, now, io).1)
    ensures Stalled(start, WithIds(WithKind(event)), Upsert(s, event, now, io).0.index)
  {
    hide Settled, Upsert, WithBlock, Rollback, RequiresRollback;
    var e := WithIds(WithKind(event));
    if e.id in s.index.seen {
      UpsertKnown(s, event, now, io);
    } else if s.index == start && RequiresRollback(start, e).ForkAt? {
      var from := RequiresRollback(start, e).from;
      UpsertForking(s, event, now, io);
      RolledForIs(s, CompensatingRecord(from, now), from);
    } else {
      if RequiresRollback(start, e).ForkAt? {
        SettledMeansOneRollback(start, e);
        ForkIgnoresReorgs(Rollback(start, RequiresRollback(start, e).from), start.reorgs + 1, e);
      }
      UpsertOnTop(s, event, now, io);
    }
  }

  lemma RolledForIs(s: Store, record: Event, from: int)
    ensures WithRollback(s, record, from).index == RolledFor(s.index, from)
  {
  }

  lemma ForkIgnoresReorgs(idx: Index, reorgs: nat, e: Event)
    ensures RequiresRollback(idx.(reorgs := reorgs), e) == RequiresRollback(idx, e)
  {
  }

  lemma {:induction false} FailedAttempts(s: Store, event: Event, tries: seq<Try>)
    requires Inv(s.index) && IsBlock(event) && AllFail(s, event, tries)
    requires Settled(s.index, WithIds(WithKind(event)))
    ensures Stalled(s.index, WithIds(WithKind(event)), Attempts(s, event, tries).index)
  {
    hide Upsert, Settled, Stalled;
    if tries == [] {
      StalledAtStart(s.index, WithIds(WithKind(event)));
    } else {
      var n := |tries| - 1;
      assert forall k | 0 <= k < n :: tries[..n][..k] == tries[..k];
      FailedAttempts(s, event, tries[..n]);
      FailureStalls(s.index, Attempts(s, event, tries[..n]), event, tries[n].now, tries[n].io);
    }
  }

  lemma StalledAtStart(start: Index, e: Event)
    ensures Stalled(start, e, start)
  {
  }

  /** The index a finished retry leaves. */
  ghost function Retried(s: Store, event: Event, tries: seq<Try>, now: int): Index {
    Upsert(Attempts(s, event, tries), event, now, NO_FAULT).0.index
  }

  ghost predicate RetryConverges(s: Store, event: Event) {
    forall tries: seq<Try>, now, once |
      AllFail(s, event, tries) ::
      Retried(s, event, tries, now) == Upsert(s, event, once, NO_FAULT).0.index
  }

  lemma KnownNeverFails(s: Store, event: Event, tries: seq<Try>)
    requires IsBlock(event) && WithIds(WithKind(event)).id in s.index.seen && AllFail(s, event, tries)
    ensures tries == []
  {
    assert tries != [] ==> tries[..0] == [];
    assert tries != [] ==> Failed(Upsert(s, event, tries[0].now, tries[0].io).1);
  }

  /** Failed attempts followed by a success leave the index one fault-free Upsert
      would, for every schedule of failures, exactly when the event is settled or
      already known. */
  lemma {:induction false} RetryConvergence(s: Store, event: Event)
    requires Inv(s.index) && IsBlock(event)
    ensures RetryConverges(s, event) <==>
              (WithIds(WithKind(event)).id in s.index.seen || Settled(s.index, WithIds(WithKind(event))))
  {
    hide Upsert, Settled, Inv, AllFail;
    var e := WithIds(WithKind(event));
    if e.id in s.index.seen || Settled(s.index, e) {
      forall tries: seq<Try>, now, once | AllFail(s, event, tries)
        ensures Retried(s, event, tries, now) == Upsert(s, event, once, NO_FAULT).0.index
      {
        SettledConverges(s, event, tries, now, once);
      }
    } else {
      UnsettledDiverges(s, event);
    }
  }

  lemma SettledConverges(s: Store, event: Event, tries: seq<Try>, now: int, once: int)
    requires Inv(s.index) && IsBlock(event) && AllFail(s, event, tries)
    requires WithIds(WithKind(event)).id in s.index.seen || Settled(s.index, WithIds(WithKind(event)))
    ensures Retried(s, event, tries, now) == Upsert(s, event, once, NO_FAULT).0.index
  {
    hide Upsert, Settled, Rollback, AllFail, RequiresRollback;
    var e := WithIds(WithKind(event));
    if e.id in s.index.seen {
      KnownNeverFails(s, event, tries);
      UpsertKnown(s, event, now, NO_FAULT);
      UpsertKnown(s, event, once, NO_FAULT);
    } else {
      FailedAttempts(s, event, tries);
      SucceedsFrom(s, Attempts(s, event, tries), event, now, once);
    }
  }

  /** From the start or from a stalled index, success ends in the same index. */
  lemma SucceedsFrom(start: Store, s: Store, event: Event, now: int, once: int)
    requires Inv(start.index) && IsBlock(event) && WithIds(WithKind(event)).id !in start.index.seen
    requires Settled(start.index, WithIds(WithKind(event))) && Stalled(start.index, WithIds(WithKind(event)), s.index)
    ensures Upsert(s, event, now, NO_FAULT).0.index == Upsert(start, event, once, NO_FAULT).0.index
  {
    hide Upsert, Settled, RequiresRollback, ApplyBlock;
    var e := WithIds(WithKind(event));
    if RequiresRollback(start.index, e).ForkAt? {
      var from := RequiresRollback(start.index, e).from;
      UpsertForking(start, event, once, NO_FAULT);
      if s.index == start.index {
        UpsertForking(s, event, now, NO_FAULT);
      } else {
        SettledMeansOneRollback(start.index, e);
        ForkIgnoresReorgs(Rollback(start.index, from), start.index.reorgs + 1, e);
        UpsertOnTop(s, event, now, NO_FAULT);
      }
    } else {
      UpsertOnTop(start, event, once, NO_FAULT);
      UpsertOnTop(s, event, now, NO_FAULT);
    }
  }

  /** An event whose parent hash is empty, or names the highest block stored below
      it (or finds none there), converges. */
  lemma {:induction false} WellParentedConverges(s: Store, event: Event)
    requires Inv(s.index) && IsBlock(event)
    requires event.parentHash == "" || TipHeight(Below(s.index.blocks, event.height)) <= 0
             || TipHash(Below(s.index.blocks, event.height)) == event.parentHash
    ensures RetryConverges(s, event)
  {
    var e := WithIds(WithKind(event));
    var below := Below(s.index.blocks, e.height);
    if RequiresRollback(s.index, e).ForkAt? && RequiresRollback(s.index, e).from != e.height {
      assert below == s.index.blocks;
      TipUnique(below, s.index.tipHeight, s.index.tipHash);
    }
    assert Settled(s.index, e);
    RetryConvergence(s, event);
  }

  lemma UnsettledForks(idx: Index, e: Event)
    requires !Settled(idx, e)
    ensures RequiresRollback(idx, e).ForkAt?
  {
  }

  lemma OneFailure(s: Store, event: Event, tries: seq<Try>)
    requires |tries| == 1 && Failed(Upsert(s, event, tries[0].now, tries[0].io).1)
    ensures AllFail(s, event, tries)
    ensures Attempts(s, event, tries) == Upsert(s, event, tries[0].now, tries[0].io).0
  {
    hide Upsert;
    assert tries[..0] == [];
  }

  lemma RollbackNarrows(idx: Index, from: int)
    ensures Rollback(idx, from).seen <= idx.seen && Rollback(idx, from).reorgs == idx.reorgs
  {
  }

  lemma BlocksCountNoReorg()
    ensures forall idx, e :: ApplyBlock(idx, e).reorgs == idx.reorgs
  {
  }

  lemma Diverges(s: Store, event: Event, tries: seq<Try>)
    requires AllFail(s, event, tries)
    requires Retried(s, event, tries, 0) != Upsert(s, event, 0, NO_FAULT).0.index
    ensures !RetryConverges(s, event)
  {
    hide Upsert, AllFail, Attempts, Retried;
  }

  /** One attempt that stops between its two appends, then a success: the second
      one rolls back, and counts a reorg, again. */
  lemma UnsettledDiverges(s: Store, event: Event)
    requires Inv(s.index) && IsBlock(event)
    requires WithIds(WithKind(event)).id !in s.index.seen && !Settled(s.index, WithIds(WithKind(event)))
    ensures AllFail(s, event, [Try(0, Appends(true, false))])
    ensures Retried(s, event, [Try(0, Appends(true, false))], 0).reorgs == s.index.reorgs + 2
    ensures Upsert(s, event, 0, NO_FAULT).0.index.reorgs == s.index.reorgs + 1
    ensures !RetryConverges(s, event)
  {
    hide Settled, Upsert, Rollback, RequiresRollback, ApplyBlock, StoredForm, Inv, AllFail, RetryConverges, Attempts;
    var e := WithIds(WithKind(event));
    UnsettledForks(s.index, e);
    var from := RequiresRollback(s.index, e).from;
    var tries := [Try(0, Appends(true, false))];
    UpsertForking(s, event, 0, Appends(true, false));
    UpsertForking(s, event, 0, NO_FAULT);
    OneFailure(s, event, tries);
    var stalled := Attempts(s, event, tries);
    SettledMeansOneRollback(s.index, e);
    ForkIgnoresReorgs(Rollback(s.index, from), s.index.reorgs + 1, e);
    RollbackNarrows(s.index, from);
    UpsertForking(stalled, event, 0, NO_FAULT);
    var again := RequiresRollback(stalled.index, e).from;
    RollbackNarrows(stalled.index, again);
    BlocksCountNoReorg();
    Diverges(s, event, tries);
  }

  /** Retrying a rollback event always converges: nothing is written until it is
      written whole. */
  lemma {:induction false} RollbackRetries(s: Store, event: Event, tries: seq<Try>)
    requires !IsBlock(event) && AllFail(s, event, tries)
    ensures Attempts(s, event, tries) == s
  {
    if tries != [] {
      var n := |tries| - 1;
      assert forall k | 0 <= k < n :: tries[..n][..k] == tries[..k];
      RollbackRetries(s, event, tries[..n]);
    }
  }
}
