/** The producer and the consumer of soulon-backend/internal/indexer/worker.go:
    what one tick emits, and how one event is persisted with retries. */
module Workers {
  import opened Text
  import opened Events
  import opened EventIndex
  import opened StoreRuns
  import opened FileEventStores

  // ---- Block names --------------------------------------------------------------------

  function HashA(height: int): string {
    "block-" + Decimal(height) + "-a"
  }

  function HashB(height: int): string {
    "block-" + Decimal(height) + "-b"
  }

  function MainEvent(height: int, parentHash: string): Event {
    Event(HashA(height), height, NEW_BLOCK, HashA(height), parentHash, 0,
          "{\"height\":" + Decimal(height) + ",\"branch\":\"main\"}")
  }

  function ReorgEvent(height: int, parentHash: string): Event {
    Event(HashB(height), height, NEW_BLOCK, HashB(height), parentHash, 0,
          "{\"height\":" + Decimal(height) + ",\"branch\":\"reorg\"}")
  }

  lemma HashesDiffer(h: int, k: int)
    ensures HashA(h) == HashA(k) ==> h == k
    ensures HashB(h) == HashB(k) ==> h == k
    ensures HashA(h) != HashB(k)
    ensures HashA(h) != "" && HashB(h) != ""
  {
    assert HashA(h)[|HashA(h)| - 1] == 'a' && HashB(k)[|HashB(k)| - 1] == 'b';
    assert HashA(h)[6..|HashA(h)| - 2] == Decimal(h) && HashA(k)[6..|HashA(k)| - 2] == Decimal(k);
    assert HashB(h)[6..|HashB(h)| - 2] == Decimal(h) && HashB(k)[6..|HashB(k)| - 2] == Decimal(k);
    if Decimal(h) == Decimal(k) {
      DecimalInjective(h, k);
    }
  }

  // ---- One tick -----------------------------------------------------------------------

  datatype Producer = Producer(nextHeight: int, hashes: map<int, string>)

  const FRESH_PRODUCER := Producer(1, map[])

  function HashAt(hashes: map<int, string>, height: int): string {
    if height in hashes then hashes[height] else ""
  }

  predicate ReorgDue(interval: int, height: int) {
    interval > 0 && height > 2 && height % interval == 0
  }

  function Tick(interval: int, p: Producer): (Producer, seq<Event>) {
    var height := p.nextHeight;
    var main := MainEvent(height, HashAt(p.hashes, height - 1));
    var hashes := p.hashes[height := main.blockHash];
    if ReorgDue(interval, height) then
      var reorg := ReorgEvent(height - 1, HashAt(hashes, height - 2));
      (Producer(height, hashes[height - 1 := reorg.blockHash] - {height}), [main, reorg])
    else
      (Producer(height + 1, hashes), [main])
  }

  class Worker {
    const reorgInterval: int
    var nextHeight: int
    var hashByHeight: map<int, string>

    ghost function Value(): Producer
      reads this
    {
      Producer(nextHeight, hashByHeight)
    }

    constructor (reorgInterval: int)
      ensures this.reorgInterval == reorgInterval && Value() == FRESH_PRODUCER
    {
      this.reorgInterval := reorgInterval;
      nextHeight, hashByHeight := 1, map[];
    }

    method HashOf(height: int) returns (hash: string)
      ensures hash == HashAt(hashByHeight, height)
    {
      hash := if height in hashByHeight then hashByHeight[height] else "";
    }

    method DropHashes(from: int, to: int)
      requires from <= to + 1
      modifies this`hashByHeight
      ensures hashByHeight == map k | k in old(hashByHeight) && !(from <= k <= to) :: old(hashByHeight)[k]
    {
      ghost var before := hashByHeight;
      assert hashByHeight == map k | k in before && !(from <= k < from) :: before[k];
      var h := from;
      while h <= to
        invariant from <= h <= to + 1
        invariant hashByHeight == map k | k in before && !(from <= k < h) :: before[k]
      {
        hashByHeight := hashByHeight - {h};
        h := h + 1;
      }
    }

    method GenerateTickEvents() returns (events: seq<Event>)
      modifies this
      ensures (Value(), events) == Tick(reorgInterval, old(Value()))
    {
      hide MainEvent, ReorgEvent;
      var height := nextHeight;
      var parentHash := HashOf(height - 1);
      var mainEvent := MainEvent(height, parentHash);
      hashByHeight := hashByHeight[height := mainEvent.blockHash];
      nextHeight := nextHeight + 1;
      events := [mainEvent];
      if reorgInterval > 0 && height > 2 && height % reorgInterval == 0 {
        var reorgHeight := height - 1;
        var reorgParentHash := HashOf(reorgHeight - 1);
        var reorgEvent := ReorgEvent(reorgHeight, reorgParentHash);
        events := events + [reorgEvent];
        hashByHeight := hashByHeight[reorgHeight := reorgEvent.blockHash];
        ghost var before := hashByHeight;
        DropHashes(reorgHeight + 1, height);
        assert hashByHeight == before - {height};
        assert events == [mainEvent, reorgEvent];
        nextHeight := reorgHeight + 1;
      }
    }
  }

  // ---- Persisting one event -------------------------------------------------------------

  datatype Persisted = Done(created: bool) | Skipped | Stopped | Cancelled

  /** One try after another until one succeeds, the tries run out, or the context
      ends during the pause after the `patience`-th failure. */
  ghost function Persist(s: Store, event: Event, tries: seq<Try>, skip: bool, patience: nat): (Store, Persisted)
    requires tries != []
    decreases |tries|
  {
    var (after, outcome) := Upsert(s, event, tries[0].now, tries[0].io);
    if !Failed(outcome) then (after, Done(outcome == Created))
    else if |tries| == 1 then (after, if skip then Skipped else Stopped)
    else if patience <= 1 then (after, Cancelled)
    else Persist(after, event, tries[1..], skip, patience - 1)
  }

  /** `tries` has one entry for each of the PersistMaxRetries attempts. */
  method PersistWithRetry(store: FileEventStore, event: Event, tries: seq<Try>, skip: bool, patience: nat)
    returns (result: Persisted)
    requires tries != []
    modifies store, store.file
    ensures (store.Value(), result) == Persist(old(store.Value()), event, tries, skip, patience)
  {
    var attempt := 1;
    while attempt <= |tries|
      invariant 1 <= attempt <= |tries|
      invariant attempt > 1 ==> patience > attempt - 1
      invariant Persist(old(store.Value()), event, tries, skip, patience)
                == Persist(store.Value(), event, tries[attempt - 1..], skip, if attempt == 1 then patience else patience - attempt + 1)
    {
      ghost var left := tries[attempt - 1..];
      assert left[1..] == tries[attempt..];
      var outcome := store.Upsert(event, tries[attempt - 1].now, tries[attempt - 1].io);
      if !Failed(outcome) {
        return Done(outcome == Created);
      }
      if attempt == |tries| {
        break;
      }
      if patience <= attempt {
        return Cancelled;
      }
      attempt := attempt + 1;
    }
    result := if skip then Skipped else Stopped;
  }

  /** What a persist did: the attempts it made, all but the last failed, and why it
      stopped there. */
  ghost predicate Explains(s: Store, event: Event, tries: seq<Try>, skip: bool, patience: nat, n: nat, end: (Store, Persisted)) {
    && 1 <= n <= |tries| && AllFail(s, event, tries[..n - 1])
    && end.0 == Attempts(s, event, tries[..n])
    && var last := Upsert(Attempts(s, event, tries[..n - 1]), event, tries[n - 1].now, tries[n - 1].io).1;
       && (n > 1 ==> patience >= n)
       && (if last == Created then end.1 == Done(true)
           else if last == Duplicate then end.1 == Done(false)
           else if n == |tries| then end.1 == (if skip then Skipped else Stopped)
           else patience <= n && end.1 == Cancelled)
  }

  /** A persist makes attempts until one is answered, the tries run out or the context
      ends, reports whether the block was new, and follows the failure policy. */
  lemma {:induction false} PersistExplained(s: Store, event: Event, tries: seq<Try>, skip: bool, patience: nat) returns (n: nat)
    requires tries != []
    ensures Explains(s, event, tries, skip, patience, n, Persist(s, event, tries, skip, patience))
    decreases |tries|
  {
    hide Upsert;
    var (after, outcome) := Upsert(s, event, tries[0].now, tries[0].io);
    FirstAttempt(s, event, tries);
    if !Failed(outcome) || |tries| == 1 || patience <= 1 {
      n := 1;
    } else {
      var m := PersistExplained(after, event, tries[1..], skip, patience - 1);
      n := m + 1;
      AttemptsShift(s, event, tries, m);
      AttemptsShift(s, event, tries, m - 1);
    }
  }

  lemma FirstAttempt(s: Store, event: Event, tries: seq<Try>)
    requires tries != []
    ensures Attempts(s, event, tries[..1]) == Upsert(s, event, tries[0].now, tries[0].io).0
    ensures tries[..0] == [] && Attempts(s, event, tries[..0]) == s && AllFail(s, event, tries[..0])
  {
    hide Upsert;
    assert tries[..1][..0] == [];
  }

  /** Attempts after a first one are attempts from where it left the store. */
  lemma {:induction false} AttemptsShiftBy(s: Store, event: Event, tries: seq<Try>, m: nat)
    requires m + 1 <= |tries|
    ensures Attempts(s, event, tries[..m + 1]) ==
              Attempts(Upsert(s, event, tries[0].now, tries[0].io).0, event, tries[1..][..m])
    decreases m
  {
    hide Upsert, Failed;
    FirstAttempt(s, event, tries);
    if m > 0 {
      AttemptsShiftBy(s, event, tries, m - 1);
      var longer, rest := tries[..m + 1], tries[1..][..m];
      assert longer[..m] == tries[..m] && rest[..m - 1] == tries[1..][..m - 1] && longer[m] == rest[m - 1];
    }
  }

  lemma AttemptsShift(s: Store, event: Event, tries: seq<Try>, m: nat)
    requires m + 1 <= |tries|
    ensures var after := Upsert(s, event, tries[0].now, tries[0].io).0;
            && Attempts(s, event, tries[..m + 1]) == Attempts(after, event, tries[1..][..m])
            && (Failed(Upsert(s, event, tries[0].now, tries[0].io).1) && AllFail(after, event, tries[1..][..m]) ==>
                  AllFail(s, event, tries[..m + 1]))
  {
    hide Upsert, Failed, Attempts;
    AttemptsShiftBy(s, event, tries, m);
    FirstAttempt(s, event, tries);
    var after := Upsert(s, event, tries[0].now, tries[0].io).0;
    var longer, rest := tries[..m + 1], tries[1..][..m];
    if Failed(Upsert(s, event, tries[0].now, tries[0].io).1) && AllFail(after, event, rest) {
      forall k | 0 <= k < |longer| ensures Failed(Upsert(Attempts(s, event, longer[..k]), event, longer[k].now, longer[k].io).1) {
        assert longer[..k] == tries[..k];
        if k > 0 {
          AttemptsShiftBy(s, event, tries, k - 1);
          assert rest[..k - 1] == tries[1..][..k - 1] && longer[k] == rest[k - 1];
        }
      }
    }
  }

  lemma AllFailExtend(s: Store, event: Event, before: seq<Try>, next: Try)
    requires AllFail(s, event, before)
    requires Failed(Upsert(Attempts(s, event, before), event, next.now, next.io).1)
    ensures AllFail(s, event, before + [next])
    ensures Attempts(s, event, before + [next]) == Upsert(Attempts(s, event, before), event, next.now, next.io).0
  {
    var more := before + [next];
    assert more[..|before|] == before;
    forall k | 0 <= k < |more| ensures Failed(Upsert(Attempts(s, event, more[..k]), event, more[k].now, more[k].io).1) {
      if k < |before| { assert more[..k] == before[..k]; }
    }
  }

  /** `result` is what `last` leaves, succeeding after `failed` attempts. */
  ghost predicate SucceedsAfter(s: Store, event: Event, failed: seq<Try>, last: Try, result: Store) {
    var before := Attempts(s, event, failed);
    AllFail(s, event, failed)
    && !Failed(Upsert(before, event, last.now, last.io).1) && Upsert(before, event, last.now, last.io).0 == result
  }

  /** A persist that reports success went through failures and then one success. */
  lemma {:induction false} PersistIsRetries(
    s: Store, event: Event, before: seq<Try>, reached: Store, tries: seq<Try>, skip: bool, patience: nat)
    returns (failed: seq<Try>, last: Try)
    requires AllFail(s, event, before) && reached == Attempts(s, event, before) && tries != []
    requires Persist(reached, event, tries, skip, patience).1.Done?
    ensures SucceedsAfter(s, event, failed, last, Persist(reached, event, tries, skip, patience).0)
    decreases |tries|
  {
    var (after, outcome) := Upsert(reached, event, tries[0].now, tries[0].io);
    if Failed(outcome) {
      AllFailExtend(s, event, before, tries[0]);
      failed, last := PersistIsRetries(s, event, before + [tries[0]], after, tries[1..], skip, patience - 1);
    } else {
      failed, last := before, tries[0];
    }
  }

  /** What a successful attempt leaves in the index does not depend on which
      appends it needed. */
  lemma SuccessIsFaultFree(s: Store, event: Event, now: int, io: Appends, once: int)
    requires !Failed(Upsert(s, event, now, io).1)
    ensures Upsert(s, event, now, io).0.index == Upsert(s, event, once, NO_FAULT).0.index
  {
  }

  /** Retry convergence for the worker: for a settled or known event, whatever the
      failures on the way, success means the index of one fault-free Upsert. */
  lemma PersistConverges(s: Store, event: Event, tries: seq<Try>, skip: bool, patience: nat, once: int)
    requires Inv(s.index) && IsBlock(event) && tries != []
    requires WithIds(WithKind(event)).id in s.index.seen || Settled(s.index, WithIds(WithKind(event)))
    requires Persist(s, event, tries, skip, patience).1.Done?
    ensures Persist(s, event, tries, skip, patience).0.index == Upsert(s, event, once, NO_FAULT).0.index
  {
    RetryConvergence(s, event);
    var failed, last := PersistIsRetries(s, event, [], s, tries, skip, patience);
    SuccessIsFaultFree(Attempts(s, event, failed), event, last.now, last.io, once);
    assert Retried(s, event, failed, once) == Upsert(s, event, once, NO_FAULT).0.index;
  }
}
