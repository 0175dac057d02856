/** The API server's own reconstruction of the chain state from the log
    (soulon-backend/internal/api/server.go, rebuildState), and when it equals the
    state the store keeps incrementally. */
module StateRebuild {
  import opened Collections
  import opened Events
  import opened EventIndex
  import opened StoreRuns

  ghost function HashesBelow(hashes: map<int, string>, from: int): map<int, string> {
    map h | h in hashes && h < from :: hashes[h]
  }

  ghost function RebuiltHashes(log: seq<Event>): map<int, string> {
    if log == [] then map[]
    else
      var hashes := RebuiltHashes(log[..|log| - 1]);
      var e := log[|log| - 1];
      if e.kind == ROLLBACK then (if e.rollbackFrom > 0 then HashesBelow(hashes, e.rollbackFrom) else hashes)
      else if e.height > 0 && e.blockHash != "" then hashes[e.height := e.blockHash]
      else hashes
  }

  ghost function RollbackCount(log: seq<Event>): nat {
    if log == [] then 0
    else RollbackCount(log[..|log| - 1]) + if log[|log| - 1].kind == ROLLBACK then 1 else 0
  }

  ghost predicate IsHighest(hashes: map<int, string>, height: int, hash: string) {
    IsTopKey(hashes, height) && hash == if height in hashes then hashes[height] else ""
  }

  ghost predicate IsRebuilt(log: seq<Event>, state: StoreState) {
    && IsHighest(RebuiltHashes(log), state.tipHeight, state.tipHash)
    && state.total == |RebuiltHashes(log)|
    && state.reorgs == RollbackCount(log)
  }

  lemma {:induction false} RebuiltHeightsPositive(log: seq<Event>)
    ensures forall h | h in RebuiltHashes(log) :: h > 0
  {
    if log != [] {
      RebuiltHeightsPositive(log[..|log| - 1]);
    }
  }

  /** The handler's loops: one pass over the log, then one over the heights in an
      arbitrary order. */
  method RebuildState(events: seq<Event>) returns (state: StoreState)
    ensures IsRebuilt(events, state)
  {
    var byHeight: map<int, string> := map[];
    var reorgs := 0;
    var i := 0;
    while i < |events|
      invariant 0 <= i <= |events|
      invariant byHeight == RebuiltHashes(events[..i]) && reorgs == RollbackCount(events[..i])
    {
      var event := events[i];
      assert events[..i + 1][..i] == events[..i];
      if event.kind == ROLLBACK {
        if event.rollbackFrom > 0 {
          byHeight := DropFrom(byHeight, event.rollbackFrom);
        }
        reorgs := reorgs + 1;
      } else if event.height > 0 && event.blockHash != "" {
        byHeight := byHeight[event.height := event.blockHash];
      }
      i := i + 1;
    }
    assert events[..i] == events;
    RebuiltHeightsPositive(events);
    var tipHeight, tipHash := 0, "";
    var todo := byHeight.Keys;
    while todo != {}
      invariant todo <= byHeight.Keys
      invariant tipHeight >= 0
      invariant forall h | h in byHeight && h !in todo :: h <= tipHeight
      invariant if tipHeight in byHeight && tipHeight !in todo then tipHash == byHeight[tipHeight]
                else tipHeight == 0 && tipHash == ""
      decreases |todo|
    {
      ghost var any := Pick(todo);
      var height :| height in todo;
      todo := todo - {height};
      if height >= tipHeight {
        tipHeight := height;
        tipHash := byHeight[height];
      }
    }
    state := StoreState(tipHeight, tipHash, |byHeight|, reorgs);
  }

  /** The inner loop: deletes the keys at or above a height, one at a time. */
  method DropFrom(hashes: map<int, string>, from: int) returns (kept: map<int, string>)
    ensures kept == HashesBelow(hashes, from)
  {
    kept := hashes;
    var todo := hashes.Keys;
    while todo != {}
      invariant todo <= hashes.Keys
      invariant kept == map h | h in hashes && (h < from || h in todo) :: hashes[h]
      decreases |todo|
    {
      ghost var any := Pick(todo);
      var height :| height in todo;
      todo := todo - {height};
      if height >= from {
        kept := kept - {height};
      }
    }
  }

  /** A record that gives height h a hash, and one that takes it away. */
  predicate Names(r: Event, h: int) {
    r.kind != "rollback" && r.height == h && h >= 1 && r.blockHash != ""
  }

  predicate Erases(r: Event, h: int) {
    r.kind == "rollback" && 0 < r.rollbackFrom <= h
  }

  ghost predicate NamedLast(log: seq<Event>, i: nat, h: int) {
    i < |log| && Names(log[i], h) && forall j | i < j < |log| :: !Names(log[j], h) && !Erases(log[j], h)
  }

  /** A height survives in a log exactly when some record names it that no later one
      renames or erases, and then it has that record's hash. */
  lemma {:induction false} SurvivingHash(log: seq<Event>, h: int)
    ensures h in RebuiltHashes(log) <==> exists i: nat :: NamedLast(log, i, h)
    ensures forall i: nat | NamedLast(log, i, h) :: h in RebuiltHashes(log) && RebuiltHashes(log)[h] == log[i].blockHash
  {
    if log != [] {
      var n := |log| - 1;
      SurvivingHash(log[..n], h);
      RebuiltHeightsPositive(log[..n]);
      if Names(log[n], h) {
        assert NamedLast(log, n, h);
      } else if !Erases(log[n], h) {
        assert forall i: nat :: NamedLast(log[..n], i, h) <==> NamedLast(log, i, h);
      }
    }
  }

  // ---- Rebuilding against replaying ---------------------------------------------------

  ghost function PositivePart(blocks: map<int, Event>): map<int, Event> {
    map h | h in blocks && h >= 1 :: blocks[h]
  }

  /** The IDs of the block records whose height is not positive. */
  ghost function LowIds(log: seq<Event>): set<string> {
    set r | r in log && r.kind != ROLLBACK && r.height <= 0 :: r.id
  }

  lemma {:induction false} RebuiltMatchesReplay(log: seq<Event>)
    requires GoodLog(log)
    ensures RebuiltHashes(log) == map h | h in PositivePart(Replay(log).blocks) :: Replay(log).blocks[h].blockHash
    ensures RollbackCount(log) == Replay(log).reorgs
  {
    if log != [] {
      var n := |log| - 1;
      GoodLogPrefix(log, n);
      RebuiltMatchesReplay(log[..n]);
      assert Admissible(Replay(log[..n]), log[n]);
    }
  }

  /** `seen` splits into the IDs of the stored positive heights and every ID ever
      logged at a height that is not positive. */
  ghost predicate SeenSplits(idx: Index, low: set<string>) {
    && idx.seen == Ids(PositivePart(idx.blocks)) + low
    && Ids(PositivePart(idx.blocks)) !! low
  }

  lemma SeenSplitsAfterRollback(idx: Index, low: set<string>, from: int)
    requires Inv(idx) && SeenSplits(idx, low) && from >= 1
    ensures SeenSplits(Rollback(idx, from), low)
  {
    var rolled := Rollback(idx, from);
    var before, after := PositivePart(idx.blocks), PositivePart(rolled.blocks);
    forall id | id in Ids(before) && id !in DroppedIds(idx.blocks, from) ensures id in Ids(after) {
      var h :| h in before && before[h].id == id;
      assert h in after;
    }
    forall id | id in DroppedIds(idx.blocks, from) ensures id in Ids(before) && id !in Ids(after) {
      var h :| h in idx.blocks && h >= from && idx.blocks[h].id == id;
      assert h in before && before[h].id == id;
    }
  }

  lemma SeenSplitsAfterBlock(idx: Index, low: set<string>, e: Event)
    requires Inv(idx) && SeenSplits(idx, low) && e.kind != ROLLBACK && Admissible(idx, e)
    ensures SeenSplits(ApplyBlock(idx, e), if e.height <= 0 then low + {e.id} else low)
  {
    var next := ApplyBlock(idx, e);
    var before, after := PositivePart(idx.blocks), PositivePart(next.blocks);
    if e.height <= 0 {
      assert after == before;
    } else {
      assert e.height !in idx.blocks;
      assert after == before[e.height := e];
      forall id | id in Ids(before) + {e.id} ensures id in Ids(after) {
        if id != e.id {
          var h :| h in before && before[h].id == id;
          assert after[h].id == id;
        } else {
          assert after[e.height].id == id;
        }
      }
    }
  }

  lemma LowIdsExtend(log: seq<Event>, r: Event)
    ensures LowIds(log + [r]) ==
              if r.kind != ROLLBACK && r.height <= 0 then LowIds(log) + {r.id} else LowIds(log)
  {
    assert forall q | q in log + [r] :: q in log || q == r;
    assert r in log + [r];
    forall id | id in LowIds(log) ensures id in LowIds(log + [r]) {
      var q :| q in log && q.kind != ROLLBACK && q.height <= 0 && q.id == id;
      assert q in log + [r];
    }
  }

  lemma SeenSplitsStep(idx: Index, low: set<string>, r: Event)
    requires Inv(idx) && SeenSplits(idx, low) && Admissible(idx, r)
    ensures SeenSplits(Apply(idx, r), if r.kind != ROLLBACK && r.height <= 0 then low + {r.id} else low)
  {
    hide Ids, PositivePart, Rollback, ApplyBlock, Inv;
    if r.kind == ROLLBACK {
      SeenSplitsAfterRollback(idx, low, r.rollbackFrom);
    } else {
      SeenSplitsAfterBlock(idx, low, r);
    }
  }

  lemma LastRecord(log: seq<Event>)
    requires GoodLog(log) && log != []
    ensures var rest, r := log[..|log| - 1], log[|log| - 1];
            GoodLog(rest) && Admissible(Replay(rest), r) && Replay(log) == Apply(Replay(rest), r)
  {
    hide Admissible, Apply;
    GoodLogPrefix(log, |log| - 1);
  }

  lemma GoodLogIsInv(log: seq<Event>)
    requires GoodLog(log)
    ensures Inv(Replay(log))
  {
    GoodLogInv(log);
  }

  lemma SplitsAtStart()
    ensures SeenSplits(Replay([]), LowIds([]))
  {
    assert Ids(PositivePart(EMPTY.blocks)) == {};
  }

  lemma SeenSplitsExtend(rest: seq<Event>, r: Event)
    requires Inv(Replay(rest)) && SeenSplits(Replay(rest), LowIds(rest)) && Admissible(Replay(rest), r)
    ensures SeenSplits(Apply(Replay(rest), r), LowIds(rest + [r]))
  {
    hide SeenSplits, LowIds, Apply, Inv, Admissible, Replay;
    SeenSplitsStep(Replay(rest), LowIds(rest), r);
    LowIdsExtend(rest, r);
  }

  lemma {:induction false} SeenSplitsAlong(log: seq<Event>)
    requires GoodLog(log)
    ensures SeenSplits(Replay(log), LowIds(log))
  {
    hide *;
    if log == [] {
      SplitsAtStart();
    } else {
      var rest, r := log[..|log| - 1], log[|log| - 1];
      LastRecord(log);
      GoodLogIsInv(rest);
      SeenSplitsAlong(rest);
      SeenSplitsExtend(rest, r);
      assert log == rest + [r];
    }
  }

  lemma {:induction false} TotalSplits(log: seq<Event>)
    requires GoodLog(log)
    ensures |Replay(log).seen| == |RebuiltHashes(log)| + |LowIds(log)|
  {
    SeenSplitsAlong(log);
    RebuiltMatchesReplay(log);
    GoodLogInv(log);
    var high := PositivePart(Replay(log).blocks);
    IdsCount(high);
    assert RebuiltHashes(log).Keys == high.Keys;
  }

  /** After any run the API's reconstruction is the store's own state, in every
      field and for every map order, exactly when no block was ever logged at a
      height that is not positive. */
  lemma {:induction false} RebuildAgrees(actions: seq<Action>)
    ensures IsRebuilt(Run(actions).log, State(Run(actions).index)) <==> PositiveLog(Run(actions).log)
  {
    RunIsConsistent(actions);
    var s := Run(actions);
    GoodLogInv(s.log);
    RebuiltMatchesReplay(s.log);
    TotalSplits(s.log);
    if PositiveLog(s.log) {
      assert LowIds(s.log) == {};
      assert PositivePart(s.index.blocks) == s.index.blocks;
    } else {
      var r :| r in s.log && r.kind != ROLLBACK && r.height <= 0;
      assert r.id in LowIds(s.log);
    }
  }

  /** There is one rebuilt state per log, so the handler's map order cannot show. */
  lemma RebuiltIsUnique(log: seq<Event>, a: StoreState, b: StoreState)
    requires IsRebuilt(log, a) && IsRebuilt(log, b)
    ensures a == b
  {
    if a.tipHeight in RebuiltHashes(log) {
      assert b.tipHeight in RebuiltHashes(log);
    }
  }
}
