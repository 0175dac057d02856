/** The store object of soulon-backend/internal/indexer/store.go. Each method is
    proved against the function of the same name in EventIndex; maps are walked in
    an arbitrary order, as in Go. */
module FileEventStores {
  import opened Collections
  import opened Events
  import opened EventIndex
  import Spec = EventIndex

  /** The JSON-lines file: an append happens whole or not at all. */
  class LogFile {
    var lines: seq<Event>

    constructor ()
      ensures lines == []
    {
      lines := [];
    }

    method Append(e: Event, reachesDisk: bool) returns (written: bool)
      modifies this
      ensures written == reachesDisk
      ensures lines == if reachesDisk then old(lines) + [e] else old(lines)
    {
      written := reachesDisk;
      if reachesDisk {
        lines := lines + [e];
      }
    }
  }

  class FileEventStore {
    const file: LogFile
    var seen: set<string>
    var eventsByHeight: map<int, Event>
    var tipHeight: int
    var tipHash: string
    var reorgs: nat

    ghost function Idx(): Index
      reads this
    {
      Index(eventsByHeight, seen, tipHeight, tipHash, reorgs)
    }

    ghost function Value(): Store
      reads this, file
    {
      Store(Idx(), file.lines)
    }

    /** A store opened on a log knows exactly what replaying the log gives. */
    constructor Open(file: LogFile)
      ensures this.file == file
      ensures Value() == Store(Replay(file.lines), old(file.lines))
    {
      this.file := file;
      seen, eventsByHeight, tipHeight, tipHash, reorgs := {}, map[], 0, "", 0;
      new;
      LoadSeen();
    }

    method LoadSeen()
      requires Idx() == EMPTY
      modifies this
      ensures Idx() == Replay(file.lines)
    {
      var i := 0;
      while i < |file.lines|
        invariant 0 <= i <= |file.lines|
        invariant Idx() == Replay(file.lines[..i])
      {
        var event := file.lines[i];
        assert file.lines[..i + 1][..i] == file.lines[..i];
        if event.kind == ROLLBACK {
          ApplyRollback(event.rollbackFrom);
          reorgs := reorgs + 1;
        } else {
          ApplyBlock(event);
        }
        i := i + 1;
      }
      assert file.lines[..i] == file.lines;
    }

    method Upsert(delivered: Event, now: int, io: Appends) returns (outcome: Outcome)
      modifies this, file
      ensures (Value(), outcome) == Spec.Upsert(old(Value()), delivered, now, io)
    {
      var event := delivered;
      if event.kind == "" {
        event := event.(kind := NEW_BLOCK);
      }
      if event.kind == ROLLBACK {
        if event.rollbackFrom <= 0 {
          return InvalidRollback;
        }
        event := event.(id := RollbackId(event.rollbackFrom, now));
        event := event.(height := event.rollbackFrom);
        var written := LogRollback(event, event.rollbackFrom, io.first);
        return if written then Created else StorageFailed;
      }
      if event.id == "" {
        if event.blockHash != "" {
          event := event.(id := event.blockHash);
        } else {
          event := event.(id := DefaultId(event.height));
        }
      }
      if event.blockHash == "" {
        event := event.(blockHash := event.id);
      }
      if event.id in seen {
        return Duplicate;
      }
      var fork := RequiresRollback(event);
      var reachesDisk := io.first;
      if fork.ForkAt? {
        var written := LogRollback(CompensatingRecord(fork.from, now), fork.from, io.first);
        if !written {
          return StorageFailed;
        }
        reachesDisk := io.second;
      }
      var written := file.Append(event, reachesDisk);
      if !written {
        return StorageFailed;
      }
      ApplyBlock(event);
      return Created;
    }

    /** The three steps both kinds of rollback share: log, forget, count. */
    method LogRollback(record: Event, from: int, reachesDisk: bool) returns (written: bool)
      modifies this, file
      ensures written == reachesDisk
      ensures Value() == if reachesDisk then WithRollback(old(Value()), record, from) else old(Value())
    {
      written := file.Append(record, reachesDisk);
      if written {
        ApplyRollback(from);
        reorgs := reorgs + 1;
      }
    }

    method Count() returns (count: nat)
      ensures count == |Value().index.seen|
    {
      count := |seen|;
    }

    method State() returns (state: StoreState)
      ensures state == Spec.State(Idx())
    {
      state := StoreState(tipHeight, tipHash, |seen|, reorgs);
    }

    method RequiresRollback(event: Event) returns (fork: Fork)
      ensures fork == Spec.RequiresRollback(Idx(), event)
    {
      if event.height <= 0 {
        return NoFork;
      }
      if event.height in eventsByHeight {
        var current := eventsByHeight[event.height];
        if current.blockHash != "" && current.blockHash != event.blockHash {
          return ForkAt(event.height);
        }
      }
      if tipHeight == 0 {
        return NoFork;
      }
      if event.height <= tipHeight {
        return ForkAt(event.height);
      }
      if tipHash != "" && event.parentHash != "" && event.parentHash != tipHash {
        var rollbackFrom := event.height - 1;
        if rollbackFrom <= 0 {
          rollbackFrom := 1;
        }
        return ForkAt(rollbackFrom);
      }
      return NoFork;
    }

    method ApplyRollback(from: int)
      modifies this
      ensures Idx() == Rollback(old(Idx()), from)
    {
      if from <= 0 {
        return;
      }
      ghost var before := eventsByHeight;
      var todo := eventsByHeight.Keys;
      while todo != {}
        invariant todo <= before.Keys
        invariant eventsByHeight == map h | h in before && (h < from || h in todo) :: before[h]
        invariant seen == old(seen) - set h | h in before && h !in todo && h >= from && before[h].id != "" :: before[h].id
        invariant tipHeight == old(tipHeight) && tipHash == old(tipHash) && reorgs == old(reorgs)
        decreases |todo|
      {
        ghost var any := Pick(todo);
        var height :| height in todo;
        todo := todo - {height};
        if height >= from {
          var event := eventsByHeight[height];
          eventsByHeight := eventsByHeight - {height};
          if event.id != "" {
            seen := seen - {event.id};
          }
        }
      }
      assert eventsByHeight == Below(before, from);
      assert seen == old(seen) - DroppedIds(before, from);
      RecalculateTip();
    }

    method ApplyBlock(delivered: Event)
      modifies this
      ensures Idx() == Spec.ApplyBlock(old(Idx()), delivered)
    {
      var event := delivered;
      if event.id == "" {
        event := event.(id := DefaultId(event.height));
      }
      if event.blockHash == "" {
        event := event.(blockHash := event.id);
      }
      eventsByHeight := eventsByHeight[event.height := event];
      seen := seen + {event.id};
      if event.height >= tipHeight {
        tipHeight := event.height;
        tipHash := event.blockHash;
      }
    }

    method RecalculateTip()
      modifies this`tipHeight, this`tipHash
      ensures tipHeight == TipHeight(eventsByHeight) && tipHash == TipHash(eventsByHeight)
    {
      var bestHeight := 0;
      var bestHash := "";
      var todo := eventsByHeight.Keys;
      while todo != {}
        invariant todo <= eventsByHeight.Keys
        invariant bestHeight >= 0
        invariant forall h | h in eventsByHeight && h !in todo :: h <= bestHeight
        invariant if bestHeight in eventsByHeight && bestHeight !in todo
                  then eventsByHeight[bestHeight].blockHash == bestHash
                  else bestHeight == 0 && bestHash == ""
        decreases |todo|
      {
        ghost var any := Pick(todo);
        var height :| height in todo;
        todo := todo - {height};
        if height >= bestHeight {
          bestHeight := height;
          bestHash := eventsByHeight[height].blockHash;
        }
      }
      tipHeight := bestHeight;
      tipHash := bestHash;
      TipUnique(eventsByHeight, tipHeight, tipHash);
    }
  }
}
