/** The in-memory queue of soulon-backend/internal/indexer/queue.go: a bounded
    channel, and the relay that takes events off it and hands them over one by one. */
module MemoryQueues {
  import opened Collections
  import opened Events

  /** `stream` is what the channel buffers; `relay` is the event taken off it and
      not yet handed over. */
  datatype Channel = Channel(stream: seq<Event>, relay: seq<Event>)

  const EMPTY_CHANNEL := Channel([], [])

  /** A send completes when the channel has room, or, unbuffered, when the relay is
      waiting to receive. */
  function Sent(buffer: nat, ch: Channel, e: Event): (Channel, bool) {
    if |ch.stream| < buffer then (ch.(stream := ch.stream + [e]), true)
    else if buffer == 0 && ch.relay == [] then (ch.(relay := [e]), true)
    else (ch, false)
  }

  function Passed(ch: Channel): Channel {
    if ch.stream == [] || ch.relay != [] then ch else Channel(ch.stream[1..], [ch.stream[0]])
  }

  function Received(ch: Channel): (Channel, Option<Event>) {
    if ch.relay == [] then (ch, None) else (ch.(relay := ch.relay[1..]), Some(ch.relay[0]))
  }

  class MemoryQueue {
    const buffer: nat
    var stream: seq<Event>
    var relay: seq<Event>

    ghost function Value(): Channel
      reads this
    {
      Channel(stream, relay)
    }

    constructor (buffer: nat)
      ensures this.buffer == buffer && Value() == EMPTY_CHANNEL
    {
      this.buffer := buffer;
      stream, relay := [], [];
    }

    /** False while the send would block. */
    method Publish(event: Event) returns (sent: bool)
      modifies this
      ensures (Value(), sent) == Sent(buffer, old(Value()), event)
    {
      sent := true;
      if |stream| < buffer {
        stream := stream + [event];
      } else if buffer == 0 && relay == [] {
        relay := [event];
      } else {
        sent := false;
      }
    }

    /** One turn of the goroutine that Consume starts. */
    method Pass()
      modifies this
      ensures Value() == Passed(old(Value()))
    {
      if stream != [] && relay == [] {
        relay := [stream[0]];
        stream := stream[1..];
      }
    }

    /** A receive on the channel that Consume returns; None while it would block. */
    method Receive() returns (event: Option<Event>)
      modifies this
      ensures (Value(), event) == Received(old(Value()))
    {
      event := None;
      if relay != [] {
        event := Some(relay[0]);
        relay := relay[1..];
      }
    }

    method Backlog() returns (count: nat)
      ensures count == |Value().stream|
    {
      count := |stream|;
    }
  }

  // ---- First in, first out --------------------------------------------------------------

  function Contents(ch: Channel): seq<Event> {
    ch.relay + ch.stream
  }

  /** The channel never holds more than its capacity, the relay never more than one. */
  ghost predicate Fits(buffer: nat, ch: Channel) {
    |ch.stream| <= buffer && |ch.relay| <= 1
  }

  lemma SendAppends(buffer: nat, ch: Channel, e: Event)
    requires Fits(buffer, ch)
    ensures var (next, sent) := Sent(buffer, ch, e);
            Fits(buffer, next) && Contents(next) == Contents(ch) + if sent then [e] else []
  {
    assert ch.relay + (ch.stream + [e]) == ch.relay + ch.stream + [e];
  }

  lemma PassKeeps(buffer: nat, ch: Channel)
    requires Fits(buffer, ch)
    ensures Fits(buffer, Passed(ch)) && Contents(Passed(ch)) == Contents(ch)
  {
    if ch.stream != [] && ch.relay == [] {
      assert [ch.stream[0]] + ch.stream[1..] == ch.stream;
    }
  }

  lemma ReceiveTakesFirst(buffer: nat, ch: Channel)
    requires Fits(buffer, ch)
    ensures var (next, e) := Received(ch);
            Fits(buffer, next) && Contents(ch) == (if e.Some? then [e.value] else []) + Contents(next)
  {
    if ch.relay != [] {
      assert ch.relay == [ch.relay[0]] + ch.relay[1..];
    }
  }

  datatype Use = Send(event: Event) | Turn | Take

  /** What was sent and what was received so far, oldest first. */
  datatype Trace = Trace(channel: Channel, sent: seq<Event>, received: seq<Event>)

  function Used(buffer: nat, t: Trace, u: Use): Trace {
    match u
    case Send(e) =>
      var (next, done) := Sent(buffer, t.channel, e);
      t.(channel := next, sent := t.sent + if done then [e] else [])
    case Turn => t.(channel := Passed(t.channel))
    case Take =>
      var (next, e) := Received(t.channel);
      t.(channel := next, received := t.received + if e.Some? then [e.value] else [])
  }

  function Run(buffer: nat, uses: seq<Use>): Trace {
    if uses == [] then Trace(EMPTY_CHANNEL, [], [])
    else Used(buffer, Run(buffer, uses[..|uses| - 1]), uses[|uses| - 1])
  }

  /** Whatever the interleaving of producer, relay and consumer: what was received,
      followed by what is still in the queue, is exactly what was sent, in order. */
  lemma {:induction false} FirstInFirstOut(buffer: nat, uses: seq<Use>)
    ensures var t := Run(buffer, uses);
            t.sent == t.received + Contents(t.channel) && Fits(buffer, t.channel)
  {
    hide Contents, Sent, Received, Passed;
    if uses == [] {
      assert Contents(EMPTY_CHANNEL) == [] by { EmptyContents(); }
    } else {
      var before := Run(buffer, uses[..|uses| - 1]);
      FirstInFirstOut(buffer, uses[..|uses| - 1]);
      match uses[|uses| - 1]
      case Send(e) => SendAppends(buffer, before.channel, e);
      case Turn => PassKeeps(buffer, before.channel);
      case Take => ReceiveTakesFirst(buffer, before.channel);
    }
  }

  function Sends(events: seq<Event>): seq<Use> {
    seq(|events|, i requires 0 <= i < |events| => Send(events[i]))
  }

  /** Nobody receiving, exactly the first events that fit are accepted: as many as the
      capacity, or one when unbuffered. */
  lemma {:induction false} SendsUntilFull(buffer: nat, events: seq<Event>)
    ensures var room := if buffer == 0 then 1 else buffer;
            Run(buffer, Sends(events)).sent == events[..if |events| < room then |events| else room]
  {
    FirstInFirstOut(buffer, Sends(events));
    OnlySent(buffer, events);
    if events != [] {
      var rest := events[..|events| - 1];
      assert Sends(events)[..|events| - 1] == Sends(rest);
      SendsUntilFull(buffer, rest);
      OnlySent(buffer, rest);
    }
  }

  lemma {:induction false} OnlySent(buffer: nat, events: seq<Event>)
    ensures var t := Run(buffer, Sends(events));
            && t.received == [] && (if buffer == 0 then t.channel.stream == [] && t.channel.relay == t.sent
                                    else t.channel.relay == [] && t.channel.stream == t.sent)
  {
    if events != [] {
      assert Sends(events)[..|events| - 1] == Sends(events[..|events| - 1]);
      OnlySent(buffer, events[..|events| - 1]);
    }
  }

  /** One turn of the relay is enough for the oldest event to be received. */
  lemma OldestArrives(buffer: nat, ch: Channel)
    requires Fits(buffer, ch)
    ensures Received(Passed(ch)).1 == if Contents(ch) == [] then None else Some(Contents(ch)[0])
  {
  }

  lemma EmptyContents()
    ensures Contents(EMPTY_CHANNEL) == []
  {
  }
}
