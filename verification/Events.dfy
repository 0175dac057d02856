/** The indexer's event record (soulon-backend/internal/indexer/event.go).
    Timestamps, partition and offset are not part of the model. */
module Events {
  import opened Collections
  import opened Text

  datatype Event = Event(
    id: string,
    height: int,
    kind: string,
    blockHash: string,
    parentHash: string,
    rollbackFrom: int,
    payload: string)

  const ROLLBACK := "rollback"
  const NEW_BLOCK := "new_block"

  function DefaultId(height: int): string {
    "block-" + Decimal(height)
  }

  function WithKind(e: Event): Event {
    if e.kind == "" then e.(kind := NEW_BLOCK) else e
  }

  /** Fills in a missing ID from the block hash (or the height) and a missing
      block hash from the ID. */
  function WithIds(e: Event): Event {
    var named :=
      if e.id != "" then e
      else if e.blockHash != "" then e.(id := e.blockHash)
      else e.(id := DefaultId(e.height));
    if named.blockHash == "" then named.(blockHash := named.id) else named
  }

  predicate IsBlock(e: Event) {
    WithKind(e).kind != ROLLBACK
  }

  /** The ID of a rollback record: the height it starts at and the clock. */
  function RollbackId(from: int, now: int): string {
    "rollback-" + Decimal(from) + "-" + Decimal(now)
  }

  /** Different heights or clocks give different names. */
  lemma RollbackIdsDiffer(from: int, now: int, otherFrom: int, otherNow: int)
    requires from >= 1 && otherFrom >= 1 && RollbackId(from, now) == RollbackId(otherFrom, otherNow)
    ensures from == otherFrom && now == otherNow
  {
    hide Decimal, DecimalNat;
    var a, b := Decimal(from), Decimal(otherFrom);
    var x, y := a + "-" + Decimal(now), b + "-" + Decimal(otherNow);
    assert RollbackId(from, now)[9..] == x && RollbackId(otherFrom, otherNow)[9..] == y;
    DecimalOfNat(from);
    DecimalOfNat(otherFrom);
    assert x == a + ['-'] + Decimal(now) && y == b + ['-'] + Decimal(otherNow);
    IndexIsFirst(a, '-', Decimal(now));
    IndexIsFirst(b, '-', Decimal(otherNow));
    assert x[..|a|] == a && y[..|b|] == b;
    assert x[|a| + 1..] == Decimal(now) && y[|b| + 1..] == Decimal(otherNow);
    DecimalInjective(from, otherFrom);
    DecimalInjective(now, otherNow);
  }

  /** The record written when a store detects a fork by itself. */
  function CompensatingRecord(from: int, now: int): Event {
    Event(RollbackId(from, now), from, ROLLBACK, "", "", from, "{\"rollbackFrom\":" + Decimal(from) + "}")
  }

  /** The record written for a rollback event delivered to a store. */
  function RequestedRecord(e: Event, now: int): Event {
    WithKind(e).(id := RollbackId(e.rollbackFrom, now), height := e.rollbackFrom)
  }
}
