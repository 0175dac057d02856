/** Node selection in soulon-backend/internal/gateway/router.go: the shared 64-bit
    counter, the scan for a healthy node, and how often each node is chosen. */
module RoundRobin {
  import opened Int64

  datatype NodeStatus = NodeStatus(endpoint: string, healthy: bool)

  /** Go's remainder, which takes the sign of the dividend. */
  function Rem(x: int, n: int): int
    requires n > 0
  {
    if x >= 0 then x % n else -((-x) % n)
  }

  /** `IndexPanic` is the run-time failure of a negative index. */
  datatype Picked = Node(index: nat) | NoNodes | NoneHealthy | IndexPanic

  function Scan(nodes: seq<NodeStatus>, start: int, offset: nat): Picked
    decreases |nodes| - offset
  {
    if offset >= |nodes| then NoneHealthy
    else
      var index := Rem(ToInt64(start + offset), |nodes|);
      if index < 0 then IndexPanic
      else if RemInRange(ToInt64(start + offset), |nodes|); nodes[index].healthy then Node(index)
      else Scan(nodes, start, offset + 1)
  }

  lemma RemInRange(x: int, n: int)
    requires n > 0
    ensures Rem(x, n) < n
  {
  }

  function Next(nodes: seq<NodeStatus>, counter: nat): Picked {
    if nodes == [] then NoNodes else Scan(nodes, ToInt64((counter + 1) % TWO_64), 0)
  }

  class Router {
    var nodes: seq<NodeStatus>
    var rr: nat

    constructor (endpoints: seq<string>)
      ensures |nodes| == |endpoints| && rr == 0
      ensures forall i | 0 <= i < |endpoints| :: nodes[i] == NodeStatus(endpoints[i], true)
    {
      nodes := seq(|endpoints|, i requires 0 <= i < |endpoints| => NodeStatus(endpoints[i], true));
      rr := 0;
    }

    method NextNode() returns (picked: Picked)
      modifies this`rr
      ensures picked == Next(nodes, old(rr))
      ensures rr == if nodes == [] then old(rr) else (old(rr) + 1) % TWO_64
    {
      if |nodes| == 0 {
        return NoNodes;
      }
      rr := (rr + 1) % TWO_64;
      var start := ToInt64(rr);
      var offset := 0;
      while offset < |nodes|
        invariant 0 <= offset <= |nodes| && rr == (old(rr) + 1) % TWO_64
        invariant Scan(nodes, start, offset) == Scan(nodes, start, 0)
      {
        var index := Rem(ToInt64(start + offset), |nodes|);
        if index < 0 {
          return IndexPanic;
        }
        RemInRange(ToInt64(start + offset), |nodes|);
        if nodes[index].healthy {
          return Node(index);
        }
        offset := offset + 1;
      }
      picked := NoneHealthy;
    }
  }

  // ---- Remainders ---------------------------------------------------------------------------

  lemma MultipleIsLarge(k: int, n: int)
    requires n > 0 && k >= 1
    ensures k * n >= n
  {
  }

  lemma RemainderUnique(x: int, n: int, q: int, r: int)
    requires n > 0 && 0 <= r < n && x == q * n + r
    ensures x % n == r
  {
    var q0, r0 := x / n, x % n;
    assert (q - q0) * n == r0 - r;
    if q > q0 {
      MultipleIsLarge(q - q0, n);
    } else if q < q0 {
      MultipleIsLarge(q0 - q, n);
    }
  }

  lemma RemainderMultiple(x: int, q: int, n: int)
    requires n > 0
    ensures (x + q * n) % n == x % n
  {
    assert x + q * n == (x / n + q) * n + x % n;
    RemainderUnique(x + q * n, n, x / n + q, x % n);
  }

  /** The place reached from `start` by going `steps` on, round n places. */
  function Place(start: int, steps: int, n: nat): nat
    requires n > 0
    ensures Place(start, steps, n) < n
  {
    (start + steps) % n
  }

  /** The place reached from i by going `steps` back. */
  function Back(i: int, steps: int, n: nat): nat
    requires n > 0
    ensures Back(i, steps, n) < n
  {
    (i - steps) % n
  }

  /** How many steps past `start` place i lies. */
  function Ahead(i: int, start: int, n: nat): nat
    requires n > 0
    ensures Ahead(i, start, n) < n
  {
    (i - start) % n
  }

  lemma AheadReaches(i: int, start: int, n: nat)
    requires 0 <= i < n
    ensures Place(start, Ahead(i, start, n), n) == i
  {
    var q := (i - start) / n;
    assert start + Ahead(i, start, n) == (-q) * n + i;
    RemainderUnique(start + Ahead(i, start, n), n, -q, i);
  }

  lemma ReachesOnlyAt(i: int, start: int, steps: int, n: nat)
    requires 0 <= steps < n && Place(start, steps, n) == i
    ensures Ahead(i, start, n) == steps
  {
    var q := (start + steps) / n;
    assert i - start == (-q) * n + steps;
    RemainderUnique(i - start, n, -q, steps);
  }

  /** Going some steps on from start is going back from i by the rest of the way. */
  lemma SamePlace(i: int, start: int, steps: int, n: nat)
    requires n > 0
    ensures Place(start, steps, n) == Back(i, Ahead(i, start, n) - steps, n)
  {
    var q := (i - start) / n;
    assert i - (Ahead(i, start, n) - steps) == (start + steps) + q * n;
    RemainderMultiple(start + steps, q, n);
  }

  lemma HomePlace(i: int, n: nat)
    requires 0 <= i < n
    ensures Back(i, 0, n) == i && Back(i, n, n) == i
  {
    RemainderUnique(i, n, 0, i);
    RemainderUnique(i - n, n, -1, i);
  }

  lemma AheadShifts(i: int, start: int, n: nat)
    requires n > 0
    ensures Ahead(i, start + n, n) == Ahead(i, start, n)
  {
    RemainderMultiple(i - start, -1, n);
    assert i - (start + n) == (i - start) + -1 * n;
  }

  lemma AheadOfLastRound(i: int, n: nat, steps: nat)
    requires n > 0 && 1 <= steps <= n
    ensures Ahead(i, i - n + steps, n) == n - steps
  {
    RemainderUnique(n - steps, n, 0, n - steps);
  }

  // ---- Which node a call returns ---------------------------------------------------------------

  /** The scan without the machine's integers: the first healthy node from an
      offset on. */
  function FirstHealthy(nodes: seq<NodeStatus>, start: int, offset: nat): Picked
    requires nodes != []
    decreases |nodes| - offset
  {
    if offset >= |nodes| then NoneHealthy
    else if nodes[Place(start, offset, |nodes|)].healthy then Node(Place(start, offset, |nodes|))
    else FirstHealthy(nodes, start, offset + 1)
  }

  /** One turn of the loop. */
  lemma ScanTurn(nodes: seq<NodeStatus>, start: int, offset: nat)
    requires offset < |nodes|
    ensures var index := Rem(ToInt64(start + offset), |nodes|);
            && index < |nodes|
            && Scan(nodes, start, offset) ==
                 if index < 0 then IndexPanic
                 else if nodes[index].healthy then Node(index)
                 else Scan(nodes, start, offset + 1)
  {
    RemInRange(ToInt64(start + offset), |nodes|);
  }

  lemma RemIsPlace(start: nat, offset: nat, n: nat)
    requires n > 0 && start + offset < TWO_63
    ensures Rem(ToInt64(start + offset), n) == Place(start, offset, n)
  {
    FitsUnchanged(start + offset);
  }

  /** Below 2 to the 63 nothing wraps. */
  lemma {:induction false} ScanIsFirstHealthy(nodes: seq<NodeStatus>, start: nat, offset: nat)
    requires nodes != [] && start + |nodes| <= TWO_63
    ensures Scan(nodes, start, offset) == FirstHealthy(nodes, start, offset)
    decreases |nodes| - offset
  {
    hide Rem, Place, ToInt64;
    if offset < |nodes| {
      ScanTurn(nodes, start, offset);
      RemIsPlace(start, offset, |nodes|);
      ScanIsFirstHealthy(nodes, start, offset + 1);
    }
  }

  lemma NextIsFirstHealthy(nodes: seq<NodeStatus>, counter: nat)
    requires nodes != [] && counter + 1 + |nodes| <= TWO_63
    ensures Next(nodes, counter) == FirstHealthy(nodes, counter + 1, 0)
  {
    assert ToInt64((counter + 1) % TWO_64) == counter + 1;
    ScanIsFirstHealthy(nodes, counter + 1, 0);
  }

  /** The scan stops no later than at any healthy node on its way. */
  lemma {:induction false} StopsBy(nodes: seq<NodeStatus>, start: int, offset: nat, at: nat) returns (b: nat)
    requires nodes != [] && offset <= at < |nodes| && nodes[Place(start, at, |nodes|)].healthy
    ensures offset <= b <= at && nodes[Place(start, b, |nodes|)].healthy
    ensures FirstHealthy(nodes, start, offset) == Node(Place(start, b, |nodes|))
    ensures forall k | offset <= k < b :: !nodes[Place(start, k, |nodes|)].healthy
    decreases at - offset
  {
    hide Place;
    if nodes[Place(start, offset, |nodes|)].healthy {
      b := offset;
    } else {
      b := StopsBy(nodes, start, offset + 1, at);
    }
  }

  lemma {:induction false} NoneFound(nodes: seq<NodeStatus>, start: int, offset: nat)
    requires nodes != [] && forall i | 0 <= i < |nodes| :: !nodes[i].healthy
    ensures FirstHealthy(nodes, start, offset) == NoneHealthy
    decreases |nodes| - offset
  {
    if offset < |nodes| {
      NoneFound(nodes, start, offset + 1);
    }
  }

  /** The distance from the previous healthy node, going round (the number of nodes
      when i is the only healthy one). */
  ghost predicate IsGap(nodes: seq<NodeStatus>, i: nat, gap: nat)
    requires nodes != []
  {
    && 1 <= gap <= |nodes|
    && nodes[Back(i, gap, |nodes|)].healthy
    && forall d | 1 <= d < gap :: !nodes[Back(i, d, |nodes|)].healthy
  }

  lemma GapExists(nodes: seq<NodeStatus>, i: nat)
    requires i < |nodes| && nodes[i].healthy
    ensures exists gap: nat :: IsGap(nodes, i, gap)
  {
    hide Back;
    HomePlace(i, |nodes|);
    var gap: nat := 1;
    while !nodes[Back(i, gap, |nodes|)].healthy
      invariant 1 <= gap <= |nodes|
      invariant forall d | 1 <= d < gap :: !nodes[Back(i, d, |nodes|)].healthy
      decreases |nodes| - gap
    {
      gap := gap + 1;
    }
    assert IsGap(nodes, i, gap);
  }

  /** A scan from `start` returns node i exactly when i lies fewer steps ahead than
      its gap. */
  lemma PicksWithinGap(nodes: seq<NodeStatus>, start: int, i: nat, gap: nat)
    requires i < |nodes| && nodes[i].healthy && IsGap(nodes, i, gap)
    ensures FirstHealthy(nodes, start, 0) == Node(i) <==> Ahead(i, start, |nodes|) < gap
  {
    hide Place, Back, Ahead, FirstHealthy;
    var n, a := |nodes|, Ahead(i, start, |nodes|);
    AheadReaches(i, start, n);
    if a < gap {
      var b := StopsBy(nodes, start, 0, a);
      SamePlace(i, start, b, n);
    } else {
      SamePlace(i, start, a - gap, n);
      var b := StopsBy(nodes, start, 0, a - gap);
      if Place(start, b, n) == i {
        ReachesOnlyAt(i, start, b, n);
      }
    }
  }

  // ---- How often, over n calls in a row ----------------------------------------------------------

  /** Whether a scan from `start` finds i within its gap. */
  function Hit(i: int, gap: nat, n: nat, start: int): nat
    requires n > 0
  {
    if Ahead(i, start, n) < gap then 1 else 0
  }

  function Hits(i: int, gap: nat, n: nat, s: int, count: nat): nat
    requires n > 0
  {
    if count == 0 then 0 else Hits(i, gap, n, s, count - 1) + Hit(i, gap, n, s + count - 1)
  }

  lemma {:induction false} HitsFromBack(i: int, gap: nat, n: nat, s: int, count: nat)
    requires n > 0
    ensures Hits(i, gap, n, s, count + 1) == Hit(i, gap, n, s) + Hits(i, gap, n, s + 1, count)
  {
    hide Hit;
    if count > 0 {
      HitsFromBack(i, gap, n, s, count - 1);
    }
  }

  /** A full round has the same number of hits wherever it starts. */
  lemma RoundShifts(i: int, gap: nat, n: nat, s: int)
    requires n > 0
    ensures Hits(i, gap, n, s + 1, n) == Hits(i, gap, n, s, n)
  {
    HitsFromBack(i, gap, n, s, n);
    AheadShifts(i, s, n);
  }

  lemma {:induction false} LastSteps(i: int, gap: nat, n: nat, count: nat)
    requires 0 < n && gap <= n && count <= n
    ensures Hits(i, gap, n, i - n + 1, count) == if count <= n - gap then 0 else count - (n - gap)
  {
    if count > 0 {
      LastSteps(i, gap, n, count - 1);
      AheadOfLastRound(i, n, count);
    }
  }

  lemma {:induction false} RoundHits(i: int, gap: nat, n: nat, s: int)
    requires 0 <= i < n && gap <= n && s >= i - n + 1
    ensures Hits(i, gap, n, s, n) == gap
    decreases s - (i - n + 1)
  {
    if s == i - n + 1 {
      LastSteps(i, gap, n, n);
    } else {
      RoundHits(i, gap, n, s - 1);
      RoundShifts(i, gap, n, s - 1);
    }
  }

  /** The results of consecutive calls, the counter moving on by one each time. */
  function Calls(nodes: seq<NodeStatus>, counter: nat, calls: nat): seq<Picked> {
    if calls == 0 then [] else Calls(nodes, counter, calls - 1) + [Next(nodes, counter + calls - 1)]
  }

  lemma CountedLast(picks: seq<Picked>, last: Picked, p: Picked)
    ensures multiset(picks + [last])[p] == multiset(picks)[p] + if last == p then 1 else 0
  {
  }

  lemma CallIsHit(nodes: seq<NodeStatus>, counter: nat, i: nat, gap: nat)
    requires i < |nodes| && nodes[i].healthy && IsGap(nodes, i, gap)
    requires counter + 1 + |nodes| <= TWO_63
    ensures (if Next(nodes, counter) == Node(i) then 1 else 0) == Hit(i, gap, |nodes|, counter + 1)
  {
    hide IsGap, Next, FirstHealthy, Ahead;
    NextIsFirstHealthy(nodes, counter);
    PicksWithinGap(nodes, counter + 1, i, gap);
  }

  lemma OneMoreCall(nodes: seq<NodeStatus>, counter: nat, calls: nat, i: nat, gap: nat)
    requires nodes != []
    ensures calls == 0 ==> Calls(nodes, counter, calls) == [] && Hits(i, gap, |nodes|, counter + 1, calls) == 0
    ensures calls > 0 ==>
              && Calls(nodes, counter, calls) == Calls(nodes, counter, calls - 1) + [Next(nodes, counter + calls - 1)]
              && Hits(i, gap, |nodes|, counter + 1, calls) ==
                   Hits(i, gap, |nodes|, counter + 1, calls - 1) + Hit(i, gap, |nodes|, counter + calls)
  {
    hide Next, Hit;
  }

  lemma {:induction false} CallsAreHits(nodes: seq<NodeStatus>, counter: nat, calls: nat, i: nat, gap: nat)
    requires i < |nodes| && nodes[i].healthy && IsGap(nodes, i, gap)
    requires counter + calls + |nodes| <= TWO_63
    ensures multiset(Calls(nodes, counter, calls))[Node(i)] == Hits(i, gap, |nodes|, counter + 1, calls)
  {
    hide *;
    OneMoreCall(nodes, counter, calls, i, gap);
    if calls > 0 {
      CallsAreHits(nodes, counter, calls - 1, i, gap);
      CallIsHit(nodes, counter + calls - 1, i, gap);
      CountedLast(Calls(nodes, counter, calls - 1), Next(nodes, counter + calls - 1), Node(i));
    }
  }

  /** No starvation: over any |nodes| consecutive calls a healthy node is returned
      exactly as many times as its distance from the previous healthy node, so at
      least once; and exactly once when the node before it is healthy too. */
  lemma {:induction false} FairShare(nodes: seq<NodeStatus>, counter: nat, i: nat, gap: nat)
    requires i < |nodes| && nodes[i].healthy && IsGap(nodes, i, gap)
    requires counter + 2 * |nodes| <= TWO_63
    ensures multiset(Calls(nodes, counter, |nodes|))[Node(i)] == gap >= 1
    ensures nodes[Back(i, 1, |nodes|)].healthy ==> gap == 1
  {
    hide Back, Hits, Calls;
    CallsAreHits(nodes, counter, |nodes|, i, gap);
    RoundHits(i, gap, |nodes|, counter + 1);
  }

  // ---- Past 2 to the 63 ---------------------------------------------------------------------------

  /** The value of the counter a call converts to a signed index. */
  function StartOf(counter: nat): int64 {
    ToInt64((counter + 1) % TWO_64)
  }

  /** What makes a call panic. With one node nothing does. A negative start panics
      unless it is a multiple of the number of nodes and the first node is healthy. A
      start whose scan would cross 2 to the 63 panics when every node before the
      crossing is unhealthy, unless the crossing lands on the first node and that is
      healthy or the last one to be looked at. */
  predicate Panics(nodes: seq<NodeStatus>, start: int64)
    requires nodes != []
  {
    var n := |nodes|;
    if n == 1 then false
    else if start < 0 then start % n != 0 || !nodes[0].healthy
    else if start + n <= TWO_63 then false
    else
      && (forall k | 0 <= k < TWO_63 - start :: !nodes[Place(start, k, n)].healthy)
      && (TWO_63 % n != 0 || (!nodes[0].healthy && TWO_63 - start + 1 < n))
  }

  lemma RemOfOne(x: int)
    ensures Rem(x, 1) == 0
  {
  }

  lemma NegativeRem(x: int, n: int)
    requires x < 0 && n > 0
    ensures Rem(x, n) <= 0
    ensures Rem(x, n) == 0 <==> x % n == 0
  {
    MultipleNegates(x, n);
    MultipleNegates(-x, n);
  }

  lemma MultipleNegates(x: int, n: int)
    requires n > 0
    ensures x % n == 0 ==> (-x) % n == 0
  {
    if x % n == 0 {
      assert -x == (-(x / n)) * n + 0;
      RemainderUnique(-x, n, -(x / n), 0);
    }
  }

  lemma AboveMultiple(x: int, n: int)
    requires n > 1 && x % n == 0
    ensures (x + 1) % n == 1
  {
    assert x + 1 == (x / n) * n + 1;
    RemainderUnique(x + 1, n, x / n, 1);
  }

  lemma OneNodeNeverPanics(nodes: seq<NodeStatus>, start: int64)
    requires |nodes| == 1
    ensures Scan(nodes, start, 0) == if nodes[0].healthy then Node(0) else NoneHealthy
  {
    hide Rem, ToInt64;
    ScanTurn(nodes, start, 0);
    RemOfOne(ToInt64(start + 0));
  }

  lemma NegativeStart(nodes: seq<NodeStatus>, start: int64)
    requires |nodes| > 1 && start < 0
    ensures Scan(nodes, start, 0) == if start % |nodes| == 0 && nodes[0].healthy then Node(0) else IndexPanic
  {
    hide Rem, Scan;
    var n := |nodes|;
    ScanTurn(nodes, start, 0);
    NegativeRem(start, n);
    if start % n == 0 && !nodes[0].healthy {
      AboveMultiple(start, n);
      ScanTurn(nodes, start, 1);
      NegativeRem(start + 1, n);
    }
  }

  /** What the scan finds once it has crossed 2 to the 63. */
  lemma AfterCrossing(nodes: seq<NodeStatus>, start: int64)
    requires |nodes| > 1 && start >= 0 && start + |nodes| > TWO_63
    ensures Scan(nodes, start, TWO_63 - start) ==
              if TWO_63 % |nodes| != 0 then IndexPanic
              else if nodes[0].healthy then Node(0)
              else if TWO_63 - start + 1 < |nodes| then IndexPanic
              else NoneHealthy
  {
    hide Rem;
    var n, edge := |nodes|, TWO_63 - start;
    assert ToInt64(start + edge) == -TWO_63;
    ScanTurn(nodes, start, edge);
    NegativeRem(-TWO_63, n);
    MultipleNegates(-TWO_63, n);
    MultipleNegates(TWO_63, n);
    if TWO_63 % n == 0 && !nodes[0].healthy && edge + 1 < n {
      assert ToInt64(start + (edge + 1)) == -TWO_63 + 1;
      ScanTurn(nodes, start, edge + 1);
      AboveMultiple(-TWO_63, n);
      NegativeRem(-TWO_63 + 1, n);
    }
  }

  /** Up to the crossing the scan looks for the first healthy node. */
  lemma {:induction false} BeforeCrossing(nodes: seq<NodeStatus>, start: int64, offset: nat)
    requires nodes != [] && start >= 0 && start + |nodes| > TWO_63 && offset <= TWO_63 - start
    ensures (forall k | offset <= k < TWO_63 - start :: !nodes[Place(start, k, |nodes|)].healthy) ==>
              Scan(nodes, start, offset) == Scan(nodes, start, TWO_63 - start)
    ensures (exists k :: offset <= k < TWO_63 - start && nodes[Place(start, k, |nodes|)].healthy) ==>
              exists i: nat :: i < |nodes| && nodes[i].healthy && Scan(nodes, start, offset) == Node(i)
    decreases TWO_63 - start - offset
  {
    if offset < TWO_63 - start {
      assert ToInt64(start + offset) == start + offset;
      ScanTurn(nodes, start, offset);
      assert Rem(start + offset, |nodes|) == Place(start, offset, |nodes|);
      if nodes[Place(start, offset, |nodes|)].healthy {
        assert Scan(nodes, start, offset) == Node(Place(start, offset, |nodes|));
      } else {
        BeforeCrossing(nodes, start, offset + 1);
      }
    }
  }

  /** For every counter value a call panics exactly under that condition. */
  lemma PanicsExactly(nodes: seq<NodeStatus>, counter: nat)
    requires nodes != []
    ensures Next(nodes, counter) == IndexPanic <==> Panics(nodes, StartOf(counter))
  {
    hide Scan, Place, ToInt64;
    var start := StartOf(counter);
    if |nodes| == 1 {
      OneNodeNeverPanics(nodes, start);
    } else if start < 0 {
      NegativeStart(nodes, start);
    } else if start + |nodes| <= TWO_63 {
      ScanIsFirstHealthy(nodes, start, 0);
      FirstHealthyAnswers(nodes, start);
    } else {
      BeforeCrossing(nodes, start, 0);
      AfterCrossing(nodes, start);
    }
  }

  /** From offset 0 on every node is looked at. */
  lemma FirstHealthyAnswers(nodes: seq<NodeStatus>, start: int)
    requires nodes != []
    ensures var picked := FirstHealthy(nodes, start, 0);
            if exists i :: 0 <= i < |nodes| && nodes[i].healthy
            then picked.Node? && picked.index < |nodes| && nodes[picked.index].healthy
            else picked == NoneHealthy
  {
    hide Place, Ahead, FirstHealthy;
    if i :| 0 <= i < |nodes| && nodes[i].healthy {
      AheadReaches(i, start, |nodes|);
      var b := StopsBy(nodes, start, 0, Ahead(i, start, |nodes|));
    } else {
      NoneFound(nodes, start, 0);
    }
  }

  /** A call that does not panic fails exactly when no node is healthy, and otherwise
      returns a healthy node, whatever the counter. */
  lemma FailsIffNoneHealthy(nodes: seq<NodeStatus>, counter: nat)
    requires nodes != [] && !Panics(nodes, StartOf(counter))
    ensures var picked := Next(nodes, counter);
            if exists i :: 0 <= i < |nodes| && nodes[i].healthy
            then picked.Node? && picked.index < |nodes| && nodes[picked.index].healthy
            else picked == NoneHealthy
  {
    hide Scan, Place, ToInt64;
    var start := StartOf(counter);
    if |nodes| == 1 {
      OneNodeNeverPanics(nodes, start);
    } else if start < 0 {
      NegativeStart(nodes, start);
    } else if start + |nodes| <= TWO_63 {
      ScanIsFirstHealthy(nodes, start, 0);
      FirstHealthyAnswers(nodes, start);
    } else {
      BeforeCrossing(nodes, start, 0);
      AfterCrossing(nodes, start);
      if forall k | 0 <= k < TWO_63 - start :: !nodes[Place(start, k, |nodes|)].healthy {
        if !nodes[0].healthy {
          LastOneLooked(nodes, start);
        }
      }
    }
  }

  /** With every node healthy the calls go round the nodes in order. */
  lemma AllHealthyRotates(nodes: seq<NodeStatus>, counter: nat)
    requires nodes != [] && counter + 1 + |nodes| <= TWO_63 && forall i | 0 <= i < |nodes| :: nodes[i].healthy
    ensures Next(nodes, counter) == Node((counter + 1) % |nodes|)
    ensures Next([], counter) == NoNodes
  {
    hide Next;
    NextIsFirstHealthy(nodes, counter);
    NoNodesAtAll(counter);
  }

  lemma NoNodesAtAll(counter: nat)
    ensures Next([], counter) == NoNodes
  {
  }

  /** When the crossing comes at the last node to be looked at and lands on the first
      one, the others have all been looked at. */
  lemma LastOneLooked(nodes: seq<NodeStatus>, start: int64)
    requires |nodes| > 1 && start >= 0 && start + |nodes| > TWO_63
    requires forall k | 0 <= k < TWO_63 - start :: !nodes[Place(start, k, |nodes|)].healthy
    requires TWO_63 % |nodes| == 0 && !nodes[0].healthy && TWO_63 - start + 1 >= |nodes|
    ensures forall i | 0 <= i < |nodes| :: !nodes[i].healthy
  {
    var n := |nodes|;
    forall i | 0 <= i < n ensures !nodes[i].healthy {
      AheadReaches(i, start, n);
      var k := Ahead(i, start, n);
      if k == TWO_63 - start {
        assert Place(start, k, n) == 0;
      }
    }
  }

  /** At 2 to the 63 the converted counter turns negative, and with three nodes the
      index does too. */
  lemma PanicsAtTwo63(nodes: seq<NodeStatus>)
    requires |nodes| == 3
    ensures Next(nodes, TWO_63 - 1) == IndexPanic
  {
    assert StartOf(TWO_63 - 1) == -TWO_63;
    assert TWO_63 % 3 == 2;
    PanicsExactly(nodes, TWO_63 - 1);
  }
}
