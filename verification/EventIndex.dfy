/** What a FileEventStore means (soulon-backend/internal/indexer/store.go): the
    in-memory index, the append-only log beside it, and the effect of one Upsert
    on both, with the clock and the outcome of each append as inputs. */
module EventIndex {
  import opened Collections
  import opened Events

  datatype Index = Index(
    blocks: map<int, Event>,
    seen: set<string>,
    tipHeight: int,
    tipHash: string,
    reorgs: nat)

  const EMPTY := Index(map[], {}, 0, "", 0)

  datatype StoreState = StoreState(tipHeight: int, tipHash: string, total: nat, reorgs: nat)

  function State(idx: Index): StoreState {
    StoreState(idx.tipHeight, idx.tipHash, |idx.seen|, idx.reorgs)
  }

  // ---- The tip -------------------------------------------------------------

  /** The tip is the highest stored block, or (0, "") when no block is stored at
      a height of 0 or more. */
  ghost predicate IsTip(blocks: map<int, Event>, height: int, hash: string) {
    if height in blocks && height >= 0 then
      blocks[height].blockHash == hash && forall h | h in blocks :: h <= height
    else
      height == 0 && hash == "" && forall h | h in blocks :: h < 0
  }

  ghost function Highest(heights: set<int>): (m: int)
    requires heights != {}
    ensures m in heights && forall h | h in heights :: h <= m
  {
    var h := Pick(heights);
    var rest := heights - {h};
    assert heights == rest + {h};
    if rest == {} then h else var m := Highest(rest); if h > m then h else m
  }

  ghost function TipHeight(blocks: map<int, Event>): (t: int)
    ensures exists hash :: IsTip(blocks, t, hash)
  {
    var candidates := set h | h in blocks && h >= 0;
    if candidates == {} then
      assert forall h | h in blocks :: h < 0 by {
        forall h | h in blocks ensures h < 0 {
          assert h !in candidates;
        }
      }
      assert IsTip(blocks, 0, "");
      0
    else
      var t := Highest(candidates);
      assert IsTip(blocks, t, blocks[t].blockHash) by {
        forall h | h in blocks ensures h <= t {
          if h >= 0 { assert h in candidates; }
        }
      }
      t
  }

  ghost function TipHash(blocks: map<int, Event>): (hash: string)
    ensures IsTip(blocks, TipHeight(blocks), hash)
  {
    if TipHeight(blocks) in blocks then blocks[TipHeight(blocks)].blockHash else ""
  }

  lemma TipUnique(blocks: map<int, Event>, height: int, hash: string)
    requires IsTip(blocks, height, hash)
    ensures height == TipHeight(blocks) && hash == TipHash(blocks)
  {
    assert IsTip(blocks, TipHeight(blocks), TipHash(blocks));
    if height in blocks && height >= 0 {
      assert TipHeight(blocks) in blocks;
    }
  }

  // ---- One record applied to the index ---------------------------------------

  function Below(blocks: map<int, Event>, from: int): map<int, Event> {
    map h | h in blocks && h < from :: blocks[h]
  }

  function DroppedIds(blocks: map<int, Event>, from: int): set<string> {
    set h | h in blocks && h >= from && blocks[h].id != "" :: blocks[h].id
  }

  /** Forgets every block at or above a height and recomputes the tip. */
  ghost function Rollback(idx: Index, from: int): Index {
    if from <= 0 then idx
    else
      var kept := Below(idx.blocks, from);
      Index(kept, idx.seen - DroppedIds(idx.blocks, from), TipHeight(kept), TipHash(kept), idx.reorgs)
  }

  function StoredForm(e: Event): Event {
    var named := if e.id == "" then e.(id := DefaultId(e.height)) else e;
    if named.blockHash == "" then named.(blockHash := named.id) else named
  }

  function ApplyBlock(idx: Index, e: Event): Index {
    var b := StoredForm(e);
    var next := idx.(blocks := idx.blocks[b.height := b], seen := idx.seen + {b.id});
    if b.height >= idx.tipHeight then next.(tipHeight := b.height, tipHash := b.blockHash) else next
  }

  /** One log record read back at start-up. */
  ghost function Apply(idx: Index, record: Event): Index {
    if record.kind == ROLLBACK then
      var rolled := Rollback(idx, record.rollbackFrom);
      rolled.(reorgs := rolled.reorgs + 1)
    else
      ApplyBlock(idx, record)
  }

  /** The index a restarted store reads back from its log. */
  ghost function Replay(log: seq<Event>): Index {
    if log == [] then EMPTY else Apply(Replay(log[..|log| - 1]), log[|log| - 1])
  }

  // ---- Upsert ------------------------------------------------------------------

  datatype Fork = NoFork | ForkAt(from: int)

  function RollbackPoint(height: int): int {
    if height - 1 <= 0 then 1 else height - 1
  }

  /** Whether an event contradicts the stored chain, and from where. */
  function RequiresRollback(idx: Index, e: Event): Fork {
    if e.height <= 0 then NoFork
    else if e.height in idx.blocks && idx.blocks[e.height].blockHash != "" && idx.blocks[e.height].blockHash != e.blockHash then
      ForkAt(e.height)
    else if idx.tipHeight == 0 then NoFork
    else if e.height <= idx.tipHeight then ForkAt(e.height)
    else if idx.tipHash != "" && e.parentHash != "" && e.parentHash != idx.tipHash then
      ForkAt(RollbackPoint(e.height))
    else NoFork
  }

  datatype Store = Store(index: Index, log: seq<Event>)

  const EMPTY_STORE := Store(EMPTY, [])

  /** Whether the first and the second append of an Upsert reach the file. */
  datatype Appends = Appends(first: bool, second: bool)

  const NO_FAULT := Appends(true, true)

  datatype Outcome = Created | Duplicate | InvalidRollback | StorageFailed

  predicate Failed(o: Outcome) {
    o == InvalidRollback || o == StorageFailed
  }

  ghost function WithRollback(s: Store, record: Event, from: int): Store {
    var rolled := Rollback(s.index, from);
    Store(rolled.(reorgs := rolled.reorgs + 1), s.log + [record])
  }

  function WithBlock(s: Store, e: Event): Store {
    Store(ApplyBlock(s.index, e), s.log + [e])
  }

  ghost function UpsertRollback(s: Store, event: Event, now: int, io: Appends): (Store, Outcome) {
    if event.rollbackFrom <= 0 then (s, InvalidRollback)
    else if !io.first then (s, StorageFailed)
    else (WithRollback(s, RequestedRecord(event, now), event.rollbackFrom), Created)
  }

  /** `e` already carries its kind, ID and hash. */
  ghost function UpsertBlock(s: Store, e: Event, now: int, io: Appends): (Store, Outcome) {
    if e.id in s.index.seen then (s, Duplicate)
    else
      match RequiresRollback(s.index, e)
      case NoFork =>
        if io.first then (WithBlock(s, e), Created) else (s, StorageFailed)
      case ForkAt(from) =>
        if !io.first then (s, StorageFailed)
        else
          var rolled := WithRollback(s, CompensatingRecord(from, now), from);
          if io.second then (WithBlock(rolled, e), Created) else (rolled, StorageFailed)
  }

  ghost function Upsert(s: Store, event: Event, now: int, io: Appends): (Store, Outcome) {
    if IsBlock(event) then UpsertBlock(s, WithIds(WithKind(event)), now, io)
    else UpsertRollback(s, event, now, io)
  }

  lemma UpsertKnown(s: Store, event: Event, now: int, io: Appends)
    requires IsBlock(event) && WithIds(WithKind(event)).id in s.index.seen
    ensures Upsert(s, event, now, io) == (s, Duplicate)
  {
  }

  lemma UpsertOnTop(s: Store, event: Event, now: int, io: Appends)
    requires IsBlock(event) && WithIds(WithKind(event)).id !in s.index.seen
    requires RequiresRollback(s.index, WithIds(WithKind(event))).NoFork?
    ensures Upsert(s, event, now, io) ==
              if io.first then (WithBlock(s, WithIds(WithKind(event))), Created) else (s, StorageFailed)
  {
  }

  lemma UpsertForking(s: Store, event: Event, now: int, io: Appends)
    requires IsBlock(event) && WithIds(WithKind(event)).id !in s.index.seen
    requires RequiresRollback(s.index, WithIds(WithKind(event))).ForkAt?
    ensures var e := WithIds(WithKind(event));
            var from := RequiresRollback(s.index, e).from;
            var rolled := WithRollback(s, CompensatingRecord(from, now), from);
            Upsert(s, event, now, io) ==
              if !io.first then (s, StorageFailed)
              else if io.second then (WithBlock(rolled, e), Created) else (rolled, StorageFailed)
  {
  }

  // ---- The invariant -----------------------------------------------------------

  function Ids(blocks: map<int, Event>): set<string> {
    set h | h in blocks :: blocks[h].id
  }

  ghost predicate WellKeyed(blocks: map<int, Event>) {
    && (forall h | h in blocks :: blocks[h].height == h && blocks[h].id != "" && blocks[h].blockHash != "")
    && (forall h, k | h in blocks && k in blocks && h != k :: blocks[h].id != blocks[k].id)
  }

  /** Holds in every reachable store, whatever heights the events carry. */
  ghost predicate Inv(idx: Index) {
    && WellKeyed(idx.blocks)
    && IsTip(idx.blocks, idx.tipHeight, idx.tipHash)
    && Ids(idx.blocks) <= idx.seen
  }

  lemma {:induction false} IdsCount(blocks: map<int, Event>)
    requires WellKeyed(blocks)
    ensures |Ids(blocks)| == |blocks|
    decreases |blocks|
  {
    if blocks.Keys == {} {
      assert Ids(blocks) == {};
    } else {
      var h := Pick(blocks.Keys);
      var rest := blocks - {h};
      assert blocks.Keys == rest.Keys + {h};
      IdsCount(rest);
      assert |blocks.Keys| == |rest.Keys| + 1;
      IdsWithout(blocks, h);
    }
  }

  lemma IdsWithout(blocks: map<int, Event>, h: int)
    requires WellKeyed(blocks) && h in blocks
    ensures blocks[h].id !in Ids(blocks - {h}) && Ids(blocks) == Ids(blocks - {h}) + {blocks[h].id}
  {
    var rest := blocks - {h};
    forall id | id in Ids(blocks) ensures id in Ids(rest) + {blocks[h].id} {
      var k :| k in blocks && blocks[k].id == id;
      if k != h {
        assert k in rest && rest[k].id == id;
      }
    }
    forall id | id in Ids(rest) ensures id in Ids(blocks) && id != blocks[h].id {
      var k :| k in rest && rest[k].id == id;
      assert k in blocks && blocks[k].id == id;
    }
    assert blocks[h].id in Ids(blocks);
  }

  ghost predicate Exact(idx: Index) {
    idx.seen == Ids(idx.blocks)
  }

  ghost predicate Positive(blocks: map<int, Event>) {
    forall h | h in blocks :: h >= 1
  }

  /** What the invariant gives for stores that only ever saw positive heights. */
  ghost predicate Sound(idx: Index) {
    Inv(idx) && Exact(idx) && Positive(idx.blocks)
  }

  /** Records the store lets into its log: rollbacks from a positive height, and
      unseen blocks that are above the tip unless their height is not positive. */
  ghost predicate Admissible(idx: Index, record: Event) {
    if record.kind == ROLLBACK then record.rollbackFrom > 0
    else
      && record.id != "" && record.blockHash != "" && record.id !in idx.seen
      && (record.height >= 1 ==> record.height > idx.tipHeight)
  }

  lemma RollbackKeepsInv(idx: Index, from: int)
    requires Inv(idx)
    ensures Inv(Rollback(idx, from))
    ensures Exact(idx) ==> Exact(Rollback(idx, from))
  {
    if Exact(idx) && from > 0 {
      var rolled := Rollback(idx, from);
      forall id | id in rolled.seen ensures id in Ids(rolled.blocks) {
        var h :| h in idx.blocks && idx.blocks[h].id == id;
        assert h in rolled.blocks;
      }
    }
  }

  lemma ApplyBlockKeepsInv(idx: Index, e: Event)
    requires Inv(idx) && e.kind != ROLLBACK && Admissible(idx, e)
    ensures Inv(ApplyBlock(idx, e))
    ensures Exact(idx) ==> (Exact(ApplyBlock(idx, e)) <==> e.height !in idx.blocks)
    ensures e.height in idx.blocks ==> e.height <= 0
  {
    hide Ids;
    assert forall h | h in idx.blocks :: idx.blocks[h].id in idx.seen by { IdsHold(idx.blocks); }
    IdsAfterBlock(idx.blocks, e);
    if e.height in idx.blocks {
      IdsHold(idx.blocks);
    }
  }

  lemma IdsHold(blocks: map<int, Event>)
    ensures forall h | h in blocks :: blocks[h].id in Ids(blocks)
  {
  }

  /** A new block adds its ID; one that takes another's place also ends that ID. */
  lemma IdsAfterBlock(blocks: map<int, Event>, e: Event)
    requires WellKeyed(blocks) && forall h | h in blocks :: blocks[h].id != e.id
    ensures var after := Ids(blocks[e.height := e]);
            if e.height in blocks then after == Ids(blocks) - {blocks[e.height].id} + {e.id}
            else after == Ids(blocks) + {e.id}
  {
    var next := blocks[e.height := e];
    forall id | id in Ids(blocks) && !(e.height in blocks && id == blocks[e.height].id) ensures id in Ids(next) {
      var h :| h in blocks && blocks[h].id == id;
      assert next[h].id == id;
    }
    assert next[e.height].id == e.id;
    assert forall h | h in next && h != e.height :: next[h] == blocks[h];
  }

  lemma ApplyKeepsInv(idx: Index, record: Event)
    requires Inv(idx) && Admissible(idx, record)
    ensures Inv(Apply(idx, record))
    ensures Exact(idx) && Positive(idx.blocks) && (record.kind == ROLLBACK || record.height >= 1)
            ==> Sound(Apply(idx, record))
  {
    if record.kind == ROLLBACK {
      RollbackKeepsInv(idx, record.rollbackFrom);
    } else {
      ApplyBlockKeepsInv(idx, record);
    }
  }

  // ---- Logs ----------------------------------------------------------------------

  /** Every record was admissible when it was written. */
  ghost predicate GoodLog(log: seq<Event>) {
    forall k | 0 <= k < |log| :: Admissible(Replay(log[..k]), log[k])
  }

  lemma GoodLogPrefix(log: seq<Event>, n: nat)
    requires GoodLog(log) && n <= |log|
    ensures GoodLog(log[..n])
  {
    forall k | 0 <= k < n ensures Admissible(Replay(log[..n][..k]), log[..n][k]) {
      assert log[..n][..k] == log[..k];
    }
  }

  lemma GoodLogExtend(log: seq<Event>, record: Event)
    requires GoodLog(log) && Admissible(Replay(log), record)
    ensures GoodLog(log + [record])
    ensures Replay(log + [record]) == Apply(Replay(log), record)
  {
    var longer := log + [record];
    assert longer[..|log|] == log;
    forall k | 0 <= k < |longer| ensures Admissible(Replay(longer[..k]), longer[k]) {
      if k < |log| { assert longer[..k] == log[..k]; }
    }
  }

  lemma {:induction false} GoodLogInv(log: seq<Event>)
    requires GoodLog(log)
    ensures Inv(Replay(log))
    ensures (forall r | r in log :: r.kind == ROLLBACK || r.height >= 1) ==> Sound(Replay(log))
  {
    if log == [] {
      assert Ids(EMPTY.blocks) == {};
    } else {
      var n := |log| - 1;
      GoodLogPrefix(log, n);
      GoodLogInv(log[..n]);
      assert forall r | r in log[..n] :: r in log;
      ApplyKeepsInv(Replay(log[..n]), log[n]);
    }
  }

  // ---- What one Upsert writes ------------------------------------------------------

  lemma ForkPointIsPositive(idx: Index, e: Event)
    ensures RequiresRollback(idx, e).ForkAt? ==> 1 <= RequiresRollback(idx, e).from <= e.height
  {
  }

  /** After the rollback an event asks for, the event lies above the tip. */
  lemma ForkClearsTheWay(idx: Index, e: Event)
    requires Inv(idx)
    ensures RequiresRollback(idx, e).NoFork? && e.height >= 1 ==> e.height > idx.tipHeight
    ensures RequiresRollback(idx, e).ForkAt? ==>
              var from := RequiresRollback(idx, e).from;
              e.height > Rollback(idx, from).tipHeight && e.height !in Rollback(idx, from).blocks
  {
    match RequiresRollback(idx, e)
    case NoFork =>
    case ForkAt(from) =>
      var rolled := Rollback(idx, from);
      assert IsTip(rolled.blocks, rolled.tipHeight, rolled.tipHash);
  }

  ghost predicate Consistent(s: Store) {
    GoodLog(s.log) && s.index == Replay(s.log)
  }

  lemma RollbackStaysConsistent(s: Store, record: Event)
    requires Consistent(s) && record.kind == ROLLBACK && record.rollbackFrom > 0
    ensures Consistent(WithRollback(s, record, record.rollbackFrom))
  {
    GoodLogExtend(s.log, record);
  }

  lemma BlockStaysConsistent(s: Store, e: Event)
    requires Consistent(s) && e.kind != ROLLBACK && Admissible(s.index, e)
    ensures Consistent(WithBlock(s, e))
  {
    GoodLogExtend(s.log, e);
  }

  /** The index in memory and the index a restart would read back never differ,
      whichever appends fail. */
  lemma {:induction false} UpsertStaysConsistent(s: Store, event: Event, now: int, io: Appends)
    requires Consistent(s)
    ensures Consistent(Upsert(s, event, now, io).0)
    ensures s.log <= Upsert(s, event, now, io).0.log
  {
    GoodLogInv(s.log);
    if IsBlock(event) {
      var e := WithIds(WithKind(event));
      if e.id !in s.index.seen {
        ForkClearsTheWay(s.index, e);
        match RequiresRollback(s.index, e)
        case NoFork =>
          BlockStaysConsistent(s, e);
        case ForkAt(from) =>
          ForkPointIsPositive(s.index, e);
          var record := CompensatingRecord(from, now);
          RollbackStaysConsistent(s, record);
          BlockStaysConsistent(WithRollback(s, record, from), e);
      }
    } else if event.rollbackFrom > 0 {
      RollbackStaysConsistent(s, RequestedRecord(event, now));
    }
  }

  lemma UpsertKeepsSound(s: Store, event: Event, now: int, io: Appends)
    requires Sound(s.index) && (IsBlock(event) ==> event.height >= 1)
    ensures Sound(Upsert(s, event, now, io).0.index)
  {
    if IsBlock(event) {
      var e := WithIds(WithKind(event));
      if e.id !in s.index.seen {
        ForkClearsTheWay(s.index, e);
        match RequiresRollback(s.index, e)
        case NoFork =>
          ApplyKeepsInv(s.index, e);
        case ForkAt(from) =>
          ForkPointIsPositive(s.index, e);
          RollbackKeepsInv(s.index, from);
          ApplyKeepsInv(WithRollback(s, CompensatingRecord(from, now), from).index, e);
      }
    } else if event.rollbackFrom > 0 {
      RollbackKeepsInv(s.index, event.rollbackFrom);
    }
  }
}
