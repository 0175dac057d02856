/** The whole indexer process as interleaved steps: ticks, the bounded FIFO queue,
    the consumer with its retries and failure policy, and process restarts. The log
    file outlives a restart. */
module Pipelines {
  import opened Text
  import opened Events
  import opened EventIndex
  import opened Workers
  import Queue = MemoryQueues

  datatype Config = Config(reorgInterval: int, buffer: nat, maxRetries: nat, skip: bool)

  /** The event the consumer is working on and how often it failed so far. */
  datatype InHand = Nothing | Trying(event: Event, failures: nat)

  /** An event moves from `pending` (emitted, not yet published) through `stream`
      (the channel) and `relay` (taken off the channel, not yet handed over) to the
      consumer. `consumed` counts finished events since the process started,
      `dropped` those given up by the skip policy. */
  datatype System = System(
    producer: Producer,
    pending: seq<Event>,
    stream: seq<Event>,
    relay: seq<Event>,
    inHand: InHand,
    halted: bool,
    consumed: nat,
    dropped: nat,
    store: Store)

  const INITIAL := System(FRESH_PRODUCER, [], [], [], Nothing, false, 0, 0, EMPTY_STORE)

  datatype Action =
    | EmitTick
    | Publish
    | Relay
    | Take
    | Attempt(now: int, io: Appends)
    | RestartProcess

  function Emitted(c: Config, y: System): System {
    if y.pending != [] then y
    else
      var (producer, events) := Tick(c.reorgInterval, y.producer);
      y.(producer := producer, pending := events)
  }

  function ChannelOf(y: System): Queue.Channel {
    Queue.Channel(y.stream, y.relay)
  }

  function WithChannel(y: System, ch: Queue.Channel): System {
    y.(stream := ch.stream, relay := ch.relay)
  }

  function Published(c: Config, y: System): System {
    if y.pending == [] then y
    else
      var (ch, sent) := Queue.Sent(c.buffer, ChannelOf(y), y.pending[0]);
      if sent then WithChannel(y, ch).(pending := y.pending[1..]) else y
  }

  function Relayed(y: System): System {
    WithChannel(y, Queue.Passed(ChannelOf(y)))
  }

  function Taken(y: System): System {
    if y.halted || y.inHand.Trying? then y
    else
      var (ch, event) := Queue.Received(ChannelOf(y));
      if event.Some? then WithChannel(y, ch).(inHand := Trying(event.value, 0)) else y
  }

  /** What the consumer does with the answer to an attempt. */
  function Answered(c: Config, y: System, outcome: Outcome): System
    requires y.inHand.Trying?
  {
    if !Failed(outcome) then y.(inHand := Nothing, consumed := y.consumed + 1)
    else if y.inHand.failures + 1 < c.maxRetries then y.(inHand := Trying(y.inHand.event, y.inHand.failures + 1))
    else if c.skip then y.(inHand := Nothing, consumed := y.consumed + 1, dropped := y.dropped + 1)
    else y.(inHand := Trying(y.inHand.event, y.inHand.failures + 1), halted := true)
  }

  ghost function Attempted(c: Config, y: System, now: int, io: Appends): System {
    if y.halted || y.inHand.Nothing? then y
    else
      var (store, outcome) := Upsert(y.store, y.inHand.event, now, io);
      Answered(c, y, outcome).(store := store)
  }

  ghost function Restarted(y: System): System {
    INITIAL.(store := Store(Replay(y.store.log), y.store.log), dropped := y.dropped)
  }

  ghost function Step(c: Config, y: System, a: Action): System {
    match a
    case EmitTick => Emitted(c, y)
    case Publish => Published(c, y)
    case Relay => Relayed(y)
    case Take => Taken(y)
    case Attempt(now, io) => Attempted(c, y, now, io)
    case RestartProcess => Restarted(y)
  }

  ghost function Run(c: Config, actions: seq<Action>): System {
    if actions == [] then INITIAL else Step(c, Run(c, actions[..|actions| - 1]), actions[|actions| - 1])
  }

  function AtConsumer(y: System): seq<Event> {
    if y.inHand.Trying? then [y.inHand.event] else []
  }

  /** Everything emitted and not yet finished, oldest first. */
  function InFlight(y: System): seq<Event> {
    AtConsumer(y) + y.relay + y.stream + y.pending
  }

  ghost predicate Bounded(c: Config, y: System) {
    Queue.Fits(c.buffer, ChannelOf(y))
  }

  lemma StepKeepsBounded(c: Config, y: System, a: Action)
    requires Bounded(c, y)
    ensures Bounded(c, Step(c, y, a))
  {
    hide Tick, Upsert, Replay;
  }

  lemma {:induction false} QueueIsBounded(c: Config, actions: seq<Action>)
    ensures Bounded(c, Run(c, actions))
  {
    if actions != [] {
      QueueIsBounded(c, actions[..|actions| - 1]);
      StepKeepsBounded(c, Run(c, actions[..|actions| - 1]), actions[|actions| - 1]);
    }
  }

  /** The consumer stops only under the stop policy, drops only under the skip policy,
      and gives an event up only after the configured number of failed attempts. */
  ghost predicate PolicyHeld(c: Config, y: System) {
    && (c.skip ==> !y.halted) && (!c.skip ==> y.dropped == 0)
    && (y.inHand.Trying? ==>
          if y.halted then y.inHand.failures == c.maxRetries else y.inHand.failures < c.maxRetries)
  }

  lemma {:induction false} PolicyIsHeld(c: Config, actions: seq<Action>)
    requires c.maxRetries >= 1
    ensures PolicyHeld(c, Run(c, actions))
  {
    hide Tick, Upsert, Replay;
    if actions != [] {
      PolicyIsHeld(c, actions[..|actions| - 1]);
    }
  }

  /** A failed attempt uses one retry; the last one drops the event or halts. */
  lemma FailedAttemptCounts(c: Config, y: System, outcome: Outcome)
    requires y.inHand.Trying? && !y.halted && y.inHand.failures < c.maxRetries
    ensures var z := Answered(c, y, outcome);
            if outcome == Created || outcome == Duplicate then z.inHand.Nothing? && z.dropped == y.dropped && !z.halted
            else if y.inHand.failures + 1 < c.maxRetries then
              z.inHand == Trying(y.inHand.event, y.inHand.failures + 1) && z.dropped == y.dropped && !z.halted
            else if c.skip then z.inHand.Nothing? && z.dropped == y.dropped + 1 && !z.halted
            else z.halted && z.dropped == y.dropped
  {
  }

  // Publishing, relaying and taking move events along without losing, repeating
  // or reordering any.

  lemma InFlightIs(y: System)
    ensures InFlight(y) == AtConsumer(y) + Queue.Contents(ChannelOf(y)) + y.pending
  {
  }

  lemma PublishKeepsOrder(c: Config, y: System)
    requires Bounded(c, y)
    ensures InFlight(Published(c, y)) == InFlight(y)
  {
    hide InFlight, Queue.Sent, Queue.Contents;
    InFlightIs(y);
    InFlightIs(Published(c, y));
    if y.pending != [] {
      Queue.SendAppends(c.buffer, ChannelOf(y), y.pending[0]);
      assert y.pending == [y.pending[0]] + y.pending[1..];
    }
  }

  lemma RelayKeepsOrder(c: Config, y: System)
    requires Bounded(c, y)
    ensures InFlight(Relayed(y)) == InFlight(y)
  {
    hide InFlight, Queue.Passed, Queue.Contents;
    InFlightIs(y);
    InFlightIs(Relayed(y));
    Queue.PassKeeps(c.buffer, ChannelOf(y));
  }

  lemma TakeKeepsOrder(c: Config, y: System)
    requires Bounded(c, y)
    ensures InFlight(Taken(y)) == InFlight(y)
  {
    hide InFlight, Queue.Received, Queue.Contents;
    InFlightIs(y);
    InFlightIs(Taken(y));
    Queue.ReceiveTakesFirst(c.buffer, ChannelOf(y));
  }

  // ---- What the producer can emit -----------------------------------------------------

  /** The height at which the producer first emits a reorg, and to which it keeps
      coming back from then on. */
  function ReorgHeight(interval: int): int
    requires interval > 0
  {
    if interval == 1 then 3 else if interval == 2 then 4 else interval
  }

  function ParentOf(height: int): string {
    if height == 1 then "" else HashA(height - 1)
  }

  function Main(height: int): Event {
    MainEvent(height, ParentOf(height))
  }

  function Forked(interval: int): Event
    requires interval > 0
  {
    ReorgEvent(ReorgHeight(interval) - 1, HashA(ReorgHeight(interval) - 2))
  }

  /** The main block of the reorg height on top of the forked block. */
  function Late(interval: int): Event
    requires interval > 0
  {
    MainEvent(ReorgHeight(interval), HashB(ReorgHeight(interval) - 1))
  }

  /** The i-th event a process emits. */
  function Emission(interval: int, i: nat): Event {
    if interval <= 0 || i < ReorgHeight(interval) then Main(i + 1)
    else if (i - ReorgHeight(interval)) % 2 == 0 then Forked(interval)
    else Late(interval)
  }

  /** How an emitted block is named and described: by its height and its branch. */
  lemma EmissionIsNamed(interval: int, i: nat)
    ensures var e := Emission(interval, i);
            var height := Decimal(e.height);
            && e.kind == "new_block" && e.id == e.blockHash && e.rollbackFrom == 0
            && ((e.id == "block-" + height + "-a" && e.payload == "{\"height\":" + height + ",\"branch\":\"main\"}")
                || (e.id == "block-" + height + "-b" && e.payload == "{\"height\":" + height + ",\"branch\":\"reorg\"}"))
  {
  }

  /** The producer's fields after emitting the first n events. */
  ghost predicate ProducerAt(interval: int, p: Producer, n: nat) {
    if interval <= 0 || n < ReorgHeight(interval) then
      p.nextHeight == n + 1 && p.hashes == map h | 1 <= h <= n :: HashA(h)
    else
      var top := ReorgHeight(interval);
      && n > top && (n - top) % 2 == 1
      && p.nextHeight == top
      && p.hashes == ForkedHashes(top)
  }

  lemma ReorgDueAt(interval: int, height: int)
    requires interval > 0 && 1 <= height <= ReorgHeight(interval)
    ensures ReorgDue(interval, height) <==> height == ReorgHeight(interval)
  {
    if interval >= 3 {
      if height < interval { SmallRemainder(height, interval); } else { WholeRemainder(interval); }
    } else if interval == 2 {
      assert height == 1 || height == 2 || height == 3 || height == 4;
    }
  }

  lemma SmallRemainder(x: nat, n: nat)
    requires x < n
    ensures x % n == x
  {
  }

  lemma WholeRemainder(n: nat)
    requires n > 0
    ensures n % n == 0
  {
  }

  /** A producer and the events it just emitted carry the sequence on from n. */
  ghost predicate CarriesOn(interval: int, n: nat, producer: Producer, events: seq<Event>) {
    && ProducerAt(interval, producer, n + |events|)
    && forall k | 0 <= k < |events| :: events[k] == Emission(interval, n + k)
  }

  /** A tick that is not due for a reorg. */
  lemma PlainTick(interval: int, p: Producer)
    requires !ReorgDue(interval, p.nextHeight)
    ensures var height := p.nextHeight;
            Tick(interval, p) == (Producer(height + 1, p.hashes[height := HashA(height)]), [MainEvent(height, HashAt(p.hashes, height - 1))])
  {
  }

  lemma TickBelowTop(interval: int, p: Producer, n: nat)
    requires ProducerAt(interval, p, n) && (interval > 0 ==> n + 1 < ReorgHeight(interval))
    ensures CarriesOn(interval, n, Tick(interval, p).0, Tick(interval, p).1)
  {
    hide Tick, MainEvent, HashA;
    if interval > 0 {
      ReorgDueAt(interval, n + 1);
    }
    PlainTick(interval, p);
    assert Tick(interval, p).1 == [Main(n + 1)];
    assert p.hashes[n + 1 := HashA(n + 1)] == map h | 1 <= h <= n + 1 :: HashA(h);
  }

  /** The hash table after a reorg: the forked block right below the top. */
  function ForkedHashes(top: int): map<int, string> {
    map h | 1 <= h <= top - 1 :: if h == top - 1 then HashB(h) else HashA(h)
  }

  lemma TickAtTopIs(interval: int, p: Producer, n: nat)
    requires interval > 0 && ProducerAt(interval, p, n) && n + 1 >= ReorgHeight(interval)
    ensures var top := ReorgHeight(interval);
            Tick(interval, p) ==
              (Producer(top, ForkedHashes(top)), [if n + 1 == top then Main(top) else Late(interval), Forked(interval)])
  {
    var top := ReorgHeight(interval);
    ReorgDueAt(interval, top);
    var hashes := p.hashes[top := HashA(top)];
    assert hashes[top - 1 := HashB(top - 1)] - {top} == ForkedHashes(top);
  }

  lemma TickAtTop(interval: int, p: Producer, n: nat)
    requires interval > 0 && ProducerAt(interval, p, n) && n + 1 >= ReorgHeight(interval)
    ensures CarriesOn(interval, n, Tick(interval, p).0, Tick(interval, p).1)
  {
    hide Tick, Main, Late, Forked, ForkedHashes, ReorgHeight;
    TickAtTopIs(interval, p, n);
    assert Emission(interval, n) == if n + 1 == ReorgHeight(interval) then Main(n + 1) else Late(interval);
    assert Emission(interval, n + 1) == Forked(interval);
  }

  /** A tick continues the emission sequence exactly where it stands. */
  lemma {:induction false} TickEmits(interval: int, p: Producer, n: nat)
    requires ProducerAt(interval, p, n)
    ensures CarriesOn(interval, n, Tick(interval, p).0, Tick(interval, p).1)
  {
    if interval <= 0 || n + 1 < ReorgHeight(interval) {
      TickBelowTop(interval, p, n);
    } else {
      TickAtTop(interval, p, n);
    }
  }
}
