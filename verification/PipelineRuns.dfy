/** Whole-run theorems about the indexer process: linkage whatever is dropped or
    restarted, the exact chain when nothing is dropped, and restarts that leave no
    trace. */
module PipelineRuns {
  import opened Events
  import opened EventIndex
  import opened Workers
  import opened Pipelines
  import StoreRuns

  // ---- Linkage under any interleaving, drops and restarts --------------------------------

  /** One of the events a producer with this interval can emit. */
  ghost predicate Canonical(interval: int, e: Event) {
    || (e == Main(e.height) && e.height >= 1 && (interval > 0 ==> e.height <= ReorgHeight(interval)))
    || (interval > 0 && (e == Forked(interval) || e == Late(interval)))
  }

  ghost predicate CanonicalBlocks(interval: int, blocks: map<int, Event>) {
    forall h | h in blocks :: Canonical(interval, blocks[h])
  }

  ghost predicate StrictlyLinked(blocks: map<int, Event>) {
    forall h | h in blocks && h - 1 in blocks :: blocks[h].parentHash == blocks[h - 1].blockHash
  }

  lemma EmissionIsCanonical(interval: int, i: nat)
    ensures Canonical(interval, Emission(interval, i))
  {
  }

  lemma CanonicalIsComplete(interval: int, e: Event)
    requires Canonical(interval, e)
    ensures e.id == e.blockHash && e.id != "" && e.kind == NEW_BLOCK && e.height >= 1
    ensures IsBlock(e) && WithIds(WithKind(e)) == e
    ensures e.parentHash == "" <==> e.height == 1
  {
    HashesDiffer(e.height, e.height);
    HashesDiffer(e.height - 1, e.height - 1);
  }

  /** At the reorg height every canonical block has the same ID, and nothing
      canonical lies above it. */
  lemma TopHasOneId(interval: int, e: Event)
    requires interval > 0 && Canonical(interval, e)
    ensures e.height <= ReorgHeight(interval)
    ensures e.height == ReorgHeight(interval) ==> e.id == HashA(e.height)
  {
  }

  lemma TopIsKnown(interval: int, idx: Index, e: Event)
    requires Sound(idx) && CanonicalBlocks(interval, idx.blocks)
    requires interval > 0 && Canonical(interval, e) && e.height == ReorgHeight(interval) && e.height <= idx.tipHeight
    ensures e.id in idx.seen
  {
    TopHasOneId(interval, e);
    var tip := idx.blocks[idx.tipHeight];
    TopHasOneId(interval, tip);
    assert tip.id in Ids(idx.blocks);
  }

  /** Only right below and at the reorg height can a canonical event be anything
      but the main block. */
  lemma CanonicalShape(interval: int, e: Event)
    requires Canonical(interval, e)
    ensures interval <= 0 || e.height < ReorgHeight(interval) - 1 ==> e == Main(e.height)
    ensures interval > 0 && e.height == ReorgHeight(interval) - 1 ==> e == Main(e.height) || e == Forked(interval)
    ensures interval > 0 ==> ReorgHeight(interval) >= 3
  {
  }

  /** A canonical event that replaces stored blocks fits the block below it. */
  lemma ReplacementFits(interval: int, idx: Index, e: Event)
    requires Sound(idx) && CanonicalBlocks(interval, idx.blocks) && Canonical(interval, e)
    requires e.id !in idx.seen && e.height <= idx.tipHeight && e.height - 1 in idx.blocks
    ensures e.parentHash == idx.blocks[e.height - 1].blockHash
  {
    hide Canonical, Main, Forked, Late, HashA, HashB, ReorgHeight, Ids;
    var below := idx.blocks[e.height - 1];
    assert Canonical(interval, below) && below.height == e.height - 1;
    CanonicalShape(interval, e);
    CanonicalShape(interval, below);
    MainFacts(e.height);
    MainFacts(below.height);
    if interval > 0 {
      TopHasOneId(interval, e);
      ForkFacts(interval);
      if e.height == ReorgHeight(interval) {
        TopIsKnown(interval, idx, e);
      }
    }
  }

  lemma NewTipFits(interval: int, idx: Index, e: Event)
    requires Sound(idx) && CanonicalBlocks(interval, idx.blocks) && Canonical(interval, e)
    requires RequiresRollback(idx, e).NoFork? && e.height - 1 in idx.blocks
    ensures e.parentHash == idx.blocks[e.height - 1].blockHash
  {
    ForkClearsTheWay(idx, e);
    CanonicalIsComplete(interval, e);
    assert idx.tipHeight == e.height - 1;
  }

  lemma LinkKept(interval: int, idx: Index, e: Event, from: int)
    requires Sound(idx) && CanonicalBlocks(interval, idx.blocks) && StrictlyLinked(idx.blocks) && Canonical(interval, e)
    requires e.id !in idx.seen && RequiresRollback(idx, e) == ForkAt(from)
    ensures StrictlyLinked(Below(idx.blocks, from)) && StrictlyLinked(Below(idx.blocks, from)[e.height := e])
  {
    hide ReorgHeight, Main, Forked, Late;
    CanonicalIsComplete(interval, e);
    if e.height - 1 in Below(idx.blocks, from) {
      assert from == e.height;
      ReplacementFits(interval, idx, e);
    }
    var after := Below(idx.blocks, from)[e.height := e];
    forall h | h in after && h - 1 in after ensures after[h].parentHash == after[h - 1].blockHash {
      if h != e.height {
        assert h < from && h in idx.blocks && h - 1 in idx.blocks;
      }
    }
  }

  lemma LinkAdded(interval: int, idx: Index, e: Event)
    requires Sound(idx) && CanonicalBlocks(interval, idx.blocks) && StrictlyLinked(idx.blocks) && Canonical(interval, e)
    requires RequiresRollback(idx, e).NoFork?
    ensures StrictlyLinked(idx.blocks[e.height := e])
  {
    hide Main, Forked, Late, ReorgHeight, Canonical, RequiresRollback;
    ForkClearsTheWay(idx, e);
    CanonicalIsComplete(interval, e);
    if e.height - 1 in idx.blocks {
      NewTipFits(interval, idx, e);
    }
    assert forall h | h in idx.blocks :: h <= idx.tipHeight;
  }

  lemma UpsertKeepsLinks(interval: int, s: Store, e: Event, now: int, io: Appends)
    requires Sound(s.index) && CanonicalBlocks(interval, s.index.blocks) && StrictlyLinked(s.index.blocks)
    requires Canonical(interval, e)
    ensures var blocks := Upsert(s, e, now, io).0.index.blocks;
            CanonicalBlocks(interval, blocks) && StrictlyLinked(blocks)
  {
    hide Main, Forked, Late, ReorgHeight, Canonical, Upsert, RequiresRollback, StrictlyLinked, Sound;
    CanonicalIsComplete(interval, e);
    if e.id in s.index.seen {
      UpsertKnown(s, e, now, io);
    } else {
      match RequiresRollback(s.index, e)
      case NoFork =>
        UpsertOnTop(s, e, now, io);
        LinkAdded(interval, s.index, e);
      case ForkAt(from) =>
        UpsertForking(s, e, now, io);
        ForkPointIsPositive(s.index, e);
        LinkKept(interval, s.index, e, from);
    }
  }

  /** What every step keeps, whatever is dropped and however often the process restarts. */
  ghost predicate LinkInv(c: Config, y: System) {
    && (forall e | e in InFlight(y) :: Canonical(c.reorgInterval, e))
    && (exists n: nat :: ProducerAt(c.reorgInterval, y.producer, n))
    && Consistent(y.store) && Sound(y.store.index)
    && CanonicalBlocks(c.reorgInterval, y.store.index.blocks)
    && StrictlyLinked(y.store.index.blocks)
  }

  lemma TickKeepsLinkInv(c: Config, y: System)
    requires LinkInv(c, y)
    ensures LinkInv(c, Emitted(c, y))
  {
    hide Tick, Canonical, ProducerAt, Emission, Sound, Consistent, StrictlyLinked, CanonicalBlocks;
    if y.pending == [] {
      var n: nat :| ProducerAt(c.reorgInterval, y.producer, n);
      TickEmits(c.reorgInterval, y.producer, n);
      var z := Emitted(c, y);
      assert ProducerAt(c.reorgInterval, z.producer, n + |z.pending|);
      assert InFlight(z) == InFlight(y) + z.pending;
      forall e | e in z.pending ensures Canonical(c.reorgInterval, e) {
        var k :| 0 <= k < |z.pending| && z.pending[k] == e;
        EmissionIsCanonical(c.reorgInterval, n + k);
      }
    }
  }

  lemma AttemptKeepsLinkInv(c: Config, y: System, now: int, io: Appends)
    requires LinkInv(c, y)
    ensures LinkInv(c, Attempted(c, y, now, io))
  {
    hide Upsert, Canonical, ProducerAt, Emission;
    if !y.halted && y.inHand.Trying? {
      var e := y.inHand.event;
      assert e in InFlight(y);
      CanonicalIsComplete(c.reorgInterval, e);
      UpsertKeepsLinks(c.reorgInterval, y.store, e, now, io);
      UpsertKeepsSound(y.store, e, now, io);
      UpsertStaysConsistent(y.store, e, now, io);
      assert forall x | x in InFlight(Attempted(c, y, now, io)) :: x in InFlight(y);
    }
  }

  lemma RestartKeepsLinkInv(c: Config, y: System)
    requires LinkInv(c, y)
    ensures LinkInv(c, Restarted(y))
  {
    assert ProducerAt(c.reorgInterval, FRESH_PRODUCER, 0);
  }

  lemma StepKeepsLinkInv(c: Config, y: System, a: Action)
    requires LinkInv(c, y) && Bounded(c, y)
    ensures LinkInv(c, Step(c, y, a))
  {
    match a
    case EmitTick => TickKeepsLinkInv(c, y);
    case Publish => PublishKeepsOrder(c, y);
    case Relay => RelayKeepsOrder(c, y);
    case Take => TakeKeepsOrder(c, y);
    case Attempt(now, io) => AttemptKeepsLinkInv(c, y, now, io);
    case RestartProcess => RestartKeepsLinkInv(c, y);
  }

  lemma {:induction false} LinkInvAlways(c: Config, actions: seq<Action>)
    ensures LinkInv(c, Run(c, actions))
  {
    if actions == [] {
      assert ProducerAt(c.reorgInterval, FRESH_PRODUCER, 0);
      assert Ids(EMPTY.blocks) == {};
    } else {
      var n := |actions| - 1;
      LinkInvAlways(c, actions[..n]);
      QueueIsBounded(c, actions[..n]);
      StepKeepsLinkInv(c, Run(c, actions[..n]), actions[n]);
    }
  }

  /** For any reorg interval, any number of ticks, any interleaving, any failing
      appends, any events dropped by the skip policy and any restarts: two stored
      blocks at adjacent heights are linked by hash. */
  lemma StoredBlocksAreLinked(c: Config, actions: seq<Action>)
    ensures var blocks := Run(c, actions).store.index.blocks;
            forall h | h in blocks && h + 1 in blocks :: blocks[h + 1].parentHash == blocks[h].blockHash
  {
    LinkInvAlways(c, actions);
    var blocks := Run(c, actions).store.index.blocks;
    forall h | h in blocks && h + 1 in blocks ensures blocks[h + 1].parentHash == blocks[h].blockHash {
      assert h + 1 - 1 in blocks;
    }
  }

  // ---- The exact chain when nothing is dropped --------------------------------------------

  function MainChain(n: int): map<int, Event> {
    map h | 1 <= h <= n :: Main(h)
  }

  function ForkedChain(interval: int): map<int, Event>
    requires interval > 0
  {
    MainChain(ReorgHeight(interval) - 2)[ReorgHeight(interval) - 1 := Forked(interval)]
  }

  ghost predicate InOrder(interval: int, events: seq<Event>, from: nat) {
    forall k | 0 <= k < |events| :: events[k] == Emission(interval, from + k)
  }

  lemma ChainTip(idx: Index, n: nat)
    requires Sound(idx) && idx.blocks == MainChain(n)
    ensures idx.tipHeight == n && idx.tipHash == if n == 0 then "" else HashA(n)
  {
    if n > 0 {
      assert n in idx.blocks && idx.tipHeight in idx.blocks;
    }
  }

  lemma ChainKnows(idx: Index, n: nat, k: int)
    requires Sound(idx) && idx.blocks == MainChain(n)
    ensures HashA(k) in idx.seen <==> 1 <= k <= n
    ensures HashB(k) !in idx.seen
  {
    if 1 <= k <= n {
      assert idx.blocks[k].id == HashA(k);
    }
    forall h | h in idx.blocks
      ensures idx.blocks[h].id != HashB(k) && (idx.blocks[h].id == HashA(k) ==> h == k)
    {
      HashesDiffer(h, k);
    }
  }

  lemma MainFacts(height: int)
    ensures var e := Main(height);
            && e.id == HashA(height) && e.blockHash == HashA(height) && e.height == height && e.parentHash == ParentOf(height)
            && IsBlock(e) && WithIds(WithKind(e)) == e
  {
    HashesDiffer(height, height);
  }

  lemma MainFollows(idx: Index, n: nat)
    requires Sound(idx) && idx.blocks == MainChain(n)
    ensures RequiresRollback(idx, Main(n + 1)) == NoFork
  {
    hide Sound, HashA, Main;
    ChainTip(idx, n);
    MainFacts(n + 1);
  }

  /** Feeding a main block to a store that holds a main chain at least up to the
      block before it. */
  lemma MainOnChain(s: Store, n: nat, k: nat, now: int, io: Appends)
    requires Sound(s.index) && s.index.blocks == MainChain(n) && k <= n
    ensures var (t, outcome) := Upsert(s, Main(k + 1), now, io);
            && (Failed(outcome) ==> t == s)
            && (!Failed(outcome) ==> t.index.blocks == MainChain(if k == n then n + 1 else n))
            && t.index.reorgs == s.index.reorgs
  {
    hide Upsert, Main, HashA, HashB, Sound;
    ChainKnows(s.index, n, k + 1);
    MainFacts(k + 1);
    if k == n {
      MainFollows(s.index, n);
      UpsertOnTop(s, Main(k + 1), now, io);
      assert MainChain(n)[n + 1 := Main(n + 1)] == MainChain(n + 1);
    } else {
      UpsertKnown(s, Main(k + 1), now, io);
    }
  }

  ghost predicate Holds(idx: Index, blocks: map<int, Event>, reorgs: nat) {
    idx.blocks == blocks && idx.reorgs == reorgs
  }

  /** What the store holds after the first n emissions, fault-free or after any
      failed attempts at the next one. */
  ghost predicate StoreAt(interval: int, idx: Index, n: nat) {
    if interval <= 0 || n < ReorgHeight(interval) then Holds(idx, MainChain(n), 0)
    else
      var top := ReorgHeight(interval);
      if n == top then Holds(idx, MainChain(top), 0) || Holds(idx, MainChain(top - 2), 1)
      else if n == top + 1 then Holds(idx, ForkedChain(interval), 1)
      else Holds(idx, ForkedChain(interval)[top := Late(interval)], 1)
  }

  lemma ForkFacts(interval: int)
    requires interval > 0
    ensures var e, top := Forked(interval), ReorgHeight(interval);
            && e.id == HashB(top - 1) && e.blockHash == HashB(top - 1) && e.height == top - 1 && e.parentHash == HashA(top - 2)
            && IsBlock(e) && WithIds(WithKind(e)) == e
  {
    HashesDiffer(ReorgHeight(interval) - 1, ReorgHeight(interval) - 1);
  }

  lemma ForkOnChain(interval: int, s: Store, now: int, io: Appends)
    requires interval > 0 && Sound(s.index) && StoreAt(interval, s.index, ReorgHeight(interval))
    ensures var (t, outcome) := Upsert(s, Forked(interval), now, io);
            StoreAt(interval, t.index, if Failed(outcome) then ReorgHeight(interval) else ReorgHeight(interval) + 1)
  {
    hide Main, Forked, HashA, HashB, Upsert, Sound;
    var top := ReorgHeight(interval);
    var e := Forked(interval);
    ForkFacts(interval);
    HashesDiffer(top - 1, top - 1);
    MainFacts(top - 1);
    if s.index.blocks == MainChain(top) {
      ChainKnows(s.index, top, top - 1);
      assert s.index.blocks[top - 1] == Main(top - 1);
      assert RequiresRollback(s.index, e) == ForkAt(top - 1);
      assert Below(s.index.blocks, top - 1) == MainChain(top - 2);
      UpsertForking(s, e, now, io);
    } else {
      ChainKnows(s.index, top - 2, top - 1);
      ChainTip(s.index, top - 2);
      assert RequiresRollback(s.index, e) == NoFork;
      UpsertOnTop(s, e, now, io);
    }
  }

  lemma LateOnFork(interval: int, s: Store, now: int, io: Appends)
    requires interval > 0 && Sound(s.index) && StoreAt(interval, s.index, ReorgHeight(interval) + 1)
    ensures var (t, outcome) := Upsert(s, Late(interval), now, io);
            StoreAt(interval, t.index, if Failed(outcome) then ReorgHeight(interval) + 1 else ReorgHeight(interval) + 2)
  {
    var top := ReorgHeight(interval);
    var e := Late(interval);
    HashesDiffer(top, top);
    assert WithIds(WithKind(e)) == e;
    assert top - 1 in s.index.blocks && s.index.tipHeight in s.index.blocks;
    forall h | h in s.index.blocks ensures s.index.blocks[h].id != e.id {
      HashesDiffer(h, top);
      HashesDiffer(top, h);
    }
    assert RequiresRollback(s.index, e) == NoFork;
  }

  lemma RepeatsAreKnown(interval: int, s: Store, n: nat, now: int, io: Appends)
    requires interval > 0 && n >= ReorgHeight(interval) + 2
    requires Sound(s.index) && StoreAt(interval, s.index, n)
    ensures Upsert(s, Emission(interval, n), now, io) == (s, Duplicate)
  {
    var top := ReorgHeight(interval);
    HashesDiffer(top, top - 1);
    assert s.index.blocks[top] == Late(interval) && s.index.blocks[top - 1] == Forked(interval);
    assert HashA(top) in Ids(s.index.blocks) && HashB(top - 1) in Ids(s.index.blocks);
  }

  /** One attempt at the next emission: on success the store moves to the next
      stage, on failure it stays at this one. */
  lemma AttemptAdvances(interval: int, s: Store, n: nat, now: int, io: Appends)
    requires Sound(s.index) && StoreAt(interval, s.index, n)
    ensures var (t, outcome) := Upsert(s, Emission(interval, n), now, io);
            StoreAt(interval, t.index, if Failed(outcome) then n else n + 1)
  {
    hide Upsert, Main, Forked, Late, Sound;
    if interval <= 0 || n < ReorgHeight(interval) {
      MainOnChain(s, n, n, now, io);
    } else if n == ReorgHeight(interval) {
      ForkOnChain(interval, s, now, io);
    } else if n == ReorgHeight(interval) + 1 {
      LateOnFork(interval, s, now, io);
    } else {
      RepeatsAreKnown(interval, s, n, now, io);
    }
  }

  /** The events in flight continue the emissions from the last one consumed. */
  ghost predicate QueueInv(c: Config, y: System) {
    && InOrder(c.reorgInterval, InFlight(y), y.consumed)
    && ProducerAt(c.reorgInterval, y.producer, y.consumed + |InFlight(y)|)
  }

  lemma TickKeepsQueueInv(c: Config, y: System)
    requires QueueInv(c, y)
    ensures QueueInv(c, Emitted(c, y))
  {
    hide Tick, ProducerAt, Emission;
    if y.pending == [] {
      TickEmits(c.reorgInterval, y.producer, y.consumed + |InFlight(y)|);
      var z := Emitted(c, y);
      assert InFlight(z) == InFlight(y) + z.pending;
    }
  }

  lemma MoveKeepsQueueInv(c: Config, y: System, a: Action)
    requires QueueInv(c, y) && Bounded(c, y) && (a.Publish? || a.Relay? || a.Take?)
    ensures QueueInv(c, Step(c, y, a))
  {
    match a
    case Publish => PublishKeepsOrder(c, y);
    case Relay => RelayKeepsOrder(c, y);
    case Take => TakeKeepsOrder(c, y);
  }

  lemma AnswerKeepsQueueInv(c: Config, y: System, outcome: Outcome)
    requires QueueInv(c, y) && y.inHand.Trying?
    ensures QueueInv(c, Answered(c, y, outcome))
  {
    hide Tick, ProducerAt, Emission, Failed;
    var z := Answered(c, y, outcome);
    assert InFlight(y)[1..] == y.relay + y.stream + y.pending;
    assert z.inHand.Nothing? ==> InFlight(z) == InFlight(y)[1..];
    assert z.inHand.Trying? ==> InFlight(z) == InFlight(y);
  }

  lemma StoreIsNotInFlight(c: Config, y: System, s: Store)
    ensures QueueInv(c, y.(store := s)) <==> QueueInv(c, y)
  {
  }

  lemma AttemptKeepsQueueInv(c: Config, y: System, now: int, io: Appends)
    requires QueueInv(c, y)
    ensures QueueInv(c, Attempted(c, y, now, io))
  {
    hide Upsert, QueueInv, Answered;
    if !y.halted && y.inHand.Trying? {
      var (store, outcome) := Upsert(y.store, y.inHand.event, now, io);
      AnswerKeepsQueueInv(c, y, outcome);
      StoreIsNotInFlight(c, Answered(c, y, outcome), store);
    }
  }

  ghost predicate ChainInv(c: Config, y: System) {
    y.dropped == 0 ==>
      QueueInv(c, y) && Sound(y.store.index) && StoreAt(c.reorgInterval, y.store.index, y.consumed)
  }

  lemma HeadOfQueue(c: Config, y: System)
    requires QueueInv(c, y) && y.inHand.Trying?
    ensures y.inHand.event == Emission(c.reorgInterval, y.consumed)
  {
    assert InFlight(y)[0] == y.inHand.event;
  }

  lemma AttemptKeepsChainInv(c: Config, y: System, now: int, io: Appends)
    requires ChainInv(c, y)
    ensures ChainInv(c, Attempted(c, y, now, io))
  {
    hide Upsert, ProducerAt, Emission, StoreAt;
    if !y.halted && y.inHand.Trying? && Attempted(c, y, now, io).dropped == 0 {
      AttemptKeepsQueueInv(c, y, now, io);
      HeadOfQueue(c, y);
      EmissionIsCanonical(c.reorgInterval, y.consumed);
      CanonicalIsComplete(c.reorgInterval, y.inHand.event);
      UpsertKeepsSound(y.store, y.inHand.event, now, io);
      AttemptAdvances(c.reorgInterval, y.store, y.consumed, now, io);
    }
  }

  lemma InitialChain(c: Config)
    ensures ChainInv(c, INITIAL)
  {
    assert Ids(EMPTY.blocks) == {};
    assert FRESH_PRODUCER.hashes == map h | 1 <= h <= 0 :: HashA(h);
    assert MainChain(0) == map[];
  }

  lemma {:induction false} ChainInvAlways(c: Config, actions: seq<Action>)
    requires RestartProcess !in actions
    ensures ChainInv(c, Run(c, actions))
  {
    hide ProducerAt, Emission, StoreAt, Tick, Attempted;
    if actions == [] {
      InitialChain(c);
    } else {
      var n := |actions| - 1;
      var y := Run(c, actions[..n]);
      ChainInvAlways(c, actions[..n]);
      QueueIsBounded(c, actions[..n]);
      assert actions[n] in actions;
      match actions[n]
      case EmitTick =>
        if y.dropped == 0 { TickKeepsQueueInv(c, y); }
      case Attempt(now, io) => AttemptKeepsChainInv(c, y, now, io);
      case RestartProcess => assert false;
      case Publish =>
        if y.dropped == 0 { MoveKeepsQueueInv(c, y, Publish); }
      case Relay =>
        if y.dropped == 0 { MoveKeepsQueueInv(c, y, Relay); }
      case Take =>
        if y.dropped == 0 { MoveKeepsQueueInv(c, y, Take); }
    }
  }

  /** Starting empty, for any reorg interval, interleaving and failing appends: as
      long as no event was dropped, the stored heights are exactly 1 to the tip and
      at most one reorg has been counted. */
  lemma StoredHeightsAreExact(c: Config, actions: seq<Action>)
    requires RestartProcess !in actions && Run(c, actions).dropped == 0
    ensures var idx := Run(c, actions).store.index;
            && (forall h :: h in idx.blocks <==> 1 <= h <= idx.tipHeight)
            && idx.reorgs <= 1
  {
    hide StoreAt, Run;
    ChainInvAlways(c, actions);
    StageHeights(c.reorgInterval, Run(c, actions).store.index, Run(c, actions).consumed);
  }

  ghost predicate HeightsAre(blocks: map<int, Event>, n: int) {
    forall h :: h in blocks <==> 1 <= h <= n
  }

  lemma TipOfInterval(idx: Index, n: nat)
    requires Sound(idx) && HeightsAre(idx.blocks, n)
    ensures HeightsAre(idx.blocks, idx.tipHeight)
  {
    if n > 0 {
      assert n in idx.blocks && idx.tipHeight in idx.blocks;
    }
  }

  lemma StageHeights(interval: int, idx: Index, n: nat)
    requires Sound(idx) && StoreAt(interval, idx, n)
    ensures HeightsAre(idx.blocks, idx.tipHeight) && idx.reorgs <= 1
  {
    hide Main, Forked, Late, Sound, Emission;
    if interval <= 0 || n < ReorgHeight(interval) {
      TipOfInterval(idx, n);
    } else {
      var top := ReorgHeight(interval);
      if n == top {
        TipOfInterval(idx, if idx.blocks == MainChain(top) then top else top - 2);
      } else {
        TipOfInterval(idx, if n == top + 1 then top - 1 else top);
      }
    }
  }

  // ---- Restarts that leave no trace --------------------------------------------------------

  /** The store holds a main chain that reaches at least the last block consumed. */
  ghost predicate ChainReaches(idx: Index, consumed: nat) {
    Sound(idx) && consumed <= idx.tipHeight && Holds(idx, MainChain(idx.tipHeight), 0)
  }

  ghost predicate RestartInv(c: Config, y: System) {
    && Consistent(y.store)
    && (y.dropped == 0 ==> QueueInv(c, y) && ChainReaches(y.store.index, y.consumed))
  }

  lemma ChainGrows(s: Store, consumed: nat, now: int, io: Appends)
    requires ChainReaches(s.index, consumed)
    ensures var (t, outcome) := Upsert(s, Main(consumed + 1), now, io);
            ChainReaches(t.index, if Failed(outcome) then consumed else consumed + 1)
  {
    var n := s.index.tipHeight;
    var (t, outcome) := Upsert(s, Main(consumed + 1), now, io);
    MainOnChain(s, n, consumed, now, io);
    MainIsBlock(consumed + 1);
    UpsertKeepsSound(s, Main(consumed + 1), now, io);
    ChainTip(t.index, if Failed(outcome) || consumed < n then n else n + 1);
  }

  lemma MainIsBlock(height: int)
    ensures IsBlock(Main(height)) && Main(height).height == height
  {
  }

  lemma AttemptKeepsRestartInv(c: Config, y: System, now: int, io: Appends)
    requires c.reorgInterval <= 0 && RestartInv(c, y)
    ensures RestartInv(c, Attempted(c, y, now, io))
  {
    hide Upsert, ProducerAt, Consistent, ChainReaches, Main;
    if !y.halted && y.inHand.Trying? {
      UpsertStaysConsistent(y.store, y.inHand.event, now, io);
      if y.dropped == 0 {
        AttemptKeepsQueueInv(c, y, now, io);
        HeadOfQueue(c, y);
        ChainGrows(y.store, y.consumed, now, io);
      }
    }
  }

  lemma {:induction false} RestartInvAlways(c: Config, actions: seq<Action>)
    requires c.reorgInterval <= 0
    ensures RestartInv(c, Run(c, actions))
  {
    if actions == [] {
      InitialChain(c);
    } else {
      var n := |actions| - 1;
      var y := Run(c, actions[..n]);
      RestartInvAlways(c, actions[..n]);
      QueueIsBounded(c, actions[..n]);
      match actions[n]
      case EmitTick =>
        if y.dropped == 0 { TickKeepsQueueInv(c, y); }
      case Attempt(now, io) => AttemptKeepsRestartInv(c, y, now, io);
      case RestartProcess =>
      case _ =>
        if y.dropped == 0 { MoveKeepsQueueInv(c, y, actions[n]); }
    }
  }

  /** Without simulated reorgs, under any number of process restarts and failing
      appends: as long as no event was dropped, the store holds exactly the main
      blocks 1 to the tip, and no reorg was ever counted. */
  lemma {:induction false} RestartsAreTransparent(c: Config, actions: seq<Action>)
    requires c.reorgInterval <= 0 && Run(c, actions).dropped == 0
    ensures var idx := Run(c, actions).store.index;
            && idx.blocks == MainChain(idx.tipHeight)
            && idx.reorgs == 0
  {
    RestartInvAlways(c, actions);
  }

  // ---- The consumer's steps are the persist loop ----------------------------------------------

  /** Attempt steps in a row, until the event in hand is finished or the consumer halts. */
  ghost function AttemptAll(c: Config, y: System, tries: seq<StoreRuns.Try>): System
    decreases |tries|
  {
    if tries == [] || y.halted || y.inHand.Nothing? then y
    else AttemptAll(c, Attempted(c, y, tries[0].now, tries[0].io), tries[1..])
  }

  /** The retries left for the event in hand, taken as single steps, do to the store
      and to the consumer what the retry loop does in one call. */
  lemma {:induction false} StepsArePersist(c: Config, y: System, tries: seq<StoreRuns.Try>)
    requires !y.halted && y.inHand.Trying? && tries != [] && y.inHand.failures + |tries| == c.maxRetries
    ensures var (store, result) := Persist(y.store, y.inHand.event, tries, c.skip, |tries|);
            var z := AttemptAll(c, y, tries);
            && z.store == store && result != Cancelled
            && (result.Done? <==> !z.halted && z.dropped == y.dropped)
            && (result == Skipped <==> z.dropped == y.dropped + 1)
            && (result == Stopped <==> z.halted)
            && (!z.halted ==> z.inHand.Nothing? && z.consumed == y.consumed + 1)
    decreases |tries|
  {
    hide Upsert;
    var z := Attempted(c, y, tries[0].now, tries[0].io);
    if !z.halted && z.inHand.Trying? {
      StepsArePersist(c, z, tries[1..]);
    }
  }
}
