/** Paged reading of the event log: the server's filter and page selection
    (soulon-backend/internal/api/server.go) and the client's export loop
    (wallet-app/src/lib/eventExport.ts), with the log as it is at each fetch. */
module PagedExport {
  import opened Events

  datatype Query = Query(
    limit: int,
    offset: int,
    ascending: bool,
    kind: string,
    hasMin: bool,
    minHeight: int,
    hasMax: bool,
    maxHeight: int)

  predicate Matches(e: Event, q: Query) {
    && (q.kind != "" ==> e.kind == q.kind)
    && (q.hasMin ==> e.height >= q.minHeight)
    && (q.hasMax ==> e.height <= q.maxHeight)
  }

  /** The events of a log that match a query, in log order. */
  function Filter(log: seq<Event>, q: Query): seq<Event> {
    if log == [] then []
    else Filter(log[..|log| - 1], q) + if Matches(log[|log| - 1], q) then [log[|log| - 1]] else []
  }

  /** The places in a log of the events that match a query. */
  function KeptAt(log: seq<Event>, q: Query): seq<nat> {
    if log == [] then []
    else KeptAt(log[..|log| - 1], q) + if Matches(log[|log| - 1], q) then [|log| - 1] else []
  }

  /** `kept` are exactly the matching events, each once, in log order: those at the
      increasing places `at`. */
  ghost predicate ListsMatches(log: seq<Event>, q: Query, at: seq<nat>, kept: seq<Event>) {
    && |kept| == |at|
    && (forall i | 0 <= i < |at| :: at[i] < |log| && Matches(log[at[i]], q) && kept[i] == log[at[i]])
    && (forall i, j | 0 <= i < j < |at| :: at[i] < at[j])
    && (forall k: nat | k < |log| && Matches(log[k], q) :: k in at)
  }

  lemma ListsOneMore(log: seq<Event>, q: Query, at: seq<nat>, kept: seq<Event>, e: Event)
    requires ListsMatches(log, q, at, kept)
    ensures if Matches(e, q) then ListsMatches(log + [e], q, at + [|log|], kept + [e])
            else ListsMatches(log + [e], q, at, kept)
  {
    hide Matches;
    var longer := log + [e];
    assert forall i | 0 <= i < |at| :: longer[at[i]] == log[at[i]];
    assert (at + [|log|])[|at|] == |log|;
    forall k: nat | k < |log| && Matches(longer[k], q) ensures k in at && k in at + [|log|] {
      assert longer[k] == log[k];
    }
  }

  lemma {:induction false} FilterKeeps(log: seq<Event>, q: Query)
    ensures ListsMatches(log, q, KeptAt(log, q), Filter(log, q))
  {
    if log != [] {
      hide ListsMatches, Matches;
      var rest, e := log[..|log| - 1], log[|log| - 1];
      FilterKeeps(rest, q);
      ListsOneMore(rest, q, KeptAt(rest, q), Filter(rest, q), e);
      assert rest + [e] == log;
      assert KeptAt(rest, q) + [] == KeptAt(rest, q) && Filter(rest, q) + [] == Filter(rest, q);
    }
  }

  lemma {:induction false} FilterMembers(log: seq<Event>, q: Query, e: Event)
    ensures e in Filter(log, q) <==>
              && e in log && (q.kind == "" || e.kind == q.kind)
              && (!q.hasMin || q.minHeight <= e.height) && (!q.hasMax || e.height <= q.maxHeight)
  {
    FilterKeeps(log, q);
    if e in log && Matches(e, q) {
      var k: nat :| k < |log| && log[k] == e;
      assert k in KeptAt(log, q);
    }
  }

  function Reversed(events: seq<Event>): seq<Event> {
    seq(|events|, i requires 0 <= i < |events| => events[|events| - 1 - i])
  }

  function Ordered(events: seq<Event>, q: Query): seq<Event> {
    if q.ascending then events else Reversed(events)
  }

  function Min(a: int, b: int): int {
    if a < b then a else b
  }

  datatype Page = Page(events: seq<Event>, total: nat, hasMore: bool) | BadRequest

  predicate Acceptable(q: Query) {
    && 1 <= q.limit <= 200 && q.offset >= 0
    && (q.hasMin && q.hasMax ==> q.minHeight <= q.maxHeight)
  }

  /** The page of the ordered, filtered log that a request asks for. */
  function PageOf(log: seq<Event>, q: Query): Page {
    var listing := Ordered(Filter(log, q), q);
    if !Acceptable(q) then BadRequest
    else if q.offset >= |listing| then Page([], |listing|, false)
    else
      var end := Min(q.offset + q.limit, |listing|);
      Page(listing[q.offset..end], |listing|, end < |listing|)
  }

  method FilterEvents(events: seq<Event>, query: Query) returns (filtered: seq<Event>)
    ensures filtered == Filter(events, query)
  {
    filtered := [];
    var i := 0;
    while i < |events|
      invariant 0 <= i <= |events|
      invariant filtered == Filter(events[..i], query)
    {
      var event := events[i];
      i := i + 1;
      assert events[..i][..i - 1] == events[..i - 1];
      if query.kind != "" && event.kind != query.kind {
        continue;
      }
      if query.hasMin && event.height < query.minHeight {
        continue;
      }
      if query.hasMax && event.height > query.maxHeight {
        continue;
      }
      filtered := filtered + [event];
    }
    assert events[..i] == events;
  }

  method SelectEvents(events: seq<Event>, query: Query) returns (selected: seq<Event>, hasMore: bool)
    requires Acceptable(query)
    ensures var listing := Ordered(events, query);
            if query.offset >= |listing| then selected == [] && !hasMore
            else var end := Min(query.offset + query.limit, |listing|);
                 selected == listing[query.offset..end] && hasMore == (end < |listing|)
  {
    var ordered: seq<Event> := [];
    if query.ascending {
      ordered := ordered + events;
    } else {
      var index := |events| - 1;
      while index >= 0
        invariant -1 <= index < |events|
        invariant ordered == Reversed(events)[..|events| - 1 - index]
      {
        ordered := ordered + [events[index]];
        index := index - 1;
      }
    }
    assert ordered == Ordered(events, query);
    if query.offset >= |ordered| {
      return [], false;
    }
    var start := query.offset;
    var end := start + query.limit;
    if end > |ordered| {
      end := |ordered|;
    }
    hasMore := end < |ordered|;
    selected := ordered[start..end];
  }

  /** The request handler: parse checks, filter, select. */
  method HandleIndexerEvents(log: seq<Event>, query: Query) returns (page: Page)
    ensures page == PageOf(log, query)
    ensures page.BadRequest? <==>
              query.limit < 1 || query.limit > 200 || query.offset < 0
              || (query.hasMin && query.hasMax && query.minHeight > query.maxHeight)
  {
    if !Acceptable(query) {
      return BadRequest;
    }
    var filtered := FilterEvents(log, query);
    var selected, hasMore := SelectEvents(filtered, query);
    page := Page(selected, |filtered|, hasMore);
  }

  // ---- The client's loop ---------------------------------------------------------------

  /** `abortAfter` is the number of fetches after which the signal is aborted. */
  datatype Options = Options(pageSize: int, maxPages: int, maxRecords: int, abortAfter: int)

  datatype Export = Collected(events: seq<Event>) | Cancelled | LimitExceeded | Rejected

  function Request(base: Query, o: Options, offset: int): Query {
    base.(limit := o.pageSize, offset := offset)
  }

  function Finished(o: Options, events: seq<Event>, fetches: nat): (Export, nat) {
    if fetches >= o.abortAfter then (Cancelled, fetches) else (Collected(events), fetches)
  }

  /** What the loop returns from a given point on, and how many fetches it made;
      `logs[k]` is the log as fetch k finds it. */
  function Collect(logs: seq<seq<Event>>, base: Query, o: Options, fetches: nat, events: seq<Event>): (Export, nat)
    requires |logs| >= o.maxPages
    decreases o.maxPages - fetches
  {
    if fetches >= o.maxPages then Finished(o, events, fetches)
    else if fetches >= o.abortAfter then (Cancelled, fetches)
    else
      match PageOf(logs[fetches], Request(base, o, |events|))
      case BadRequest => (Rejected, fetches + 1)
      case Page(page, total, hasMore) =>
        if total > o.maxRecords || |events + page| > o.maxRecords then (LimitExceeded, fetches + 1)
        else if page == [] || !hasMore then Finished(o, events + page, fetches + 1)
        else Collect(logs, base, o, fetches + 1, events + page)
  }

  method CollectAllEvents(logs: seq<seq<Event>>, base: Query, o: Options) returns (result: Export, fetches: nat)
    requires |logs| >= o.maxPages
    ensures (result, fetches) == Collect(logs, base, o, 0, [])
  {
    hide PageOf;
    var events: seq<Event> := [];
    var offset := 0;
    var hasMore := true;
    fetches := 0;
    while hasMore && fetches < o.maxPages
      invariant offset == |events|
      invariant if hasMore then Collect(logs, base, o, fetches, events) == Collect(logs, base, o, 0, [])
                else Finished(o, events, fetches) == Collect(logs, base, o, 0, [])
      decreases o.maxPages - fetches
    {
      if fetches >= o.abortAfter {
        return Cancelled, fetches;
      }
      var response := HandleIndexerEvents(logs[fetches], Request(base, o, offset));
      if response.BadRequest? {
        return Rejected, fetches + 1;
      }
      if response.total > o.maxRecords {
        return LimitExceeded, fetches + 1;
      }
      events := events + response.events;
      if |events| > o.maxRecords {
        return LimitExceeded, fetches + 1;
      }
      hasMore := response.hasMore;
      fetches := fetches + 1;
      if |response.events| == 0 {
        break;
      }
      offset := offset + |response.events|;
    }
    if fetches >= o.abortAfter {
      return Cancelled, fetches;
    }
    result := Collected(events);
  }

  // ---- What an export contains -----------------------------------------------------------

  /** The whole listing a fetch pages through. */
  function Listing(logs: seq<seq<Event>>, base: Query, k: nat): seq<Event>
    requires k < |logs|
  {
    Ordered(Filter(logs[k], base), base)
  }

  /** Between the first n fetches listings only ever grow at the end. */
  ghost predicate Steady(logs: seq<seq<Event>>, base: Query, n: nat)
    requires n <= |logs|
  {
    forall i, j | 0 <= i <= j < n :: Listing(logs, base, i) <= Listing(logs, base, j)
  }

  lemma {:induction false} FilterIgnoresPaging(log: seq<Event>, base: Query, o: Options, offset: int)
    ensures Filter(log, Request(base, o, offset)) == Filter(log, base)
  {
    if log != [] {
      FilterIgnoresPaging(log[..|log| - 1], base, o, offset);
    }
  }

  lemma FetchCount(logs: seq<seq<Event>>, base: Query, o: Options, fetches: nat, events: seq<Event>)
    requires |logs| >= o.maxPages && (fetches <= o.maxPages || fetches == 0)
    ensures fetches <= Collect(logs, base, o, fetches, events).1
    ensures Collect(logs, base, o, fetches, events).1 <= if o.maxPages > 0 then o.maxPages else 0
    decreases o.maxPages - fetches
  {
  }

  /** What one fetch adds: the next stretch of the listing. */
  lemma FetchTakes(logs: seq<seq<Event>>, base: Query, o: Options, fetches: nat, events: seq<Event>)
    requires fetches < |logs| && Acceptable(Request(base, o, 0)) && events <= Listing(logs, base, fetches)
    ensures var listing := Listing(logs, base, fetches);
            var response := PageOf(logs[fetches], Request(base, o, |events|));
            && response.Page? && response.total == |listing|
            && events + response.events == listing[..Min(|events| + o.pageSize, |listing|)]
            && (response.hasMore <==> |events| + o.pageSize < |listing|)
  {
    FilterIgnoresPaging(logs[fetches], base, o, |events|);
  }

  /** What n full pages hold. */
  function Capacity(pageSize: nat, n: nat): nat {
    if n == 0 then 0 else Capacity(pageSize, n - 1) + pageSize
  }

  lemma {:induction false} CapacityIsProduct(pageSize: nat, n: nat)
    ensures Capacity(pageSize, n) == pageSize * n
  {
    if n > 0 {
      CapacityIsProduct(pageSize, n - 1);
      assert pageSize * n == pageSize * (n - 1) + pageSize;
    }
  }

  /** An export collects exactly the listing of the last fetch, in order, with no
      gap and no repeat, cut to pageSize * fetches only when the page limit stops it;
      and it refuses exactly when a fetch reports more than maxRecords events. */
  ghost predicate Faithful(logs: seq<seq<Event>>, base: Query, o: Options, outcome: (Export, nat))
    requires outcome.1 <= |logs| && Acceptable(Request(base, o, 0))
  {
    var n := outcome.1;
    match outcome.0
    case Collected(events) =>
      && n < o.abortAfter
      && if n == 0 then events == []
      else
        var listing := Listing(logs, base, n - 1);
        && events == listing[..Min(Capacity(o.pageSize, n), |listing|)]
        && (n < o.maxPages ==> events == listing)
        && forall k | 0 <= k < n :: |Listing(logs, base, k)| <= o.maxRecords
    case LimitExceeded => n >= 1 && |Listing(logs, base, n - 1)| > o.maxRecords
    case Cancelled => n >= o.abortAfter
    case Rejected => false
  }

  lemma {:induction false} CollectIsFaithful(logs: seq<seq<Event>>, base: Query, o: Options, fetches: nat, events: seq<Event>)
    requires |logs| >= o.maxPages && Acceptable(Request(base, o, 0)) && (fetches <= o.maxPages || fetches == 0)
    requires Collect(logs, base, o, fetches, events).1 <= |logs|
    requires Steady(logs, base, Collect(logs, base, o, fetches, events).1)
    requires |events| == Capacity(o.pageSize, fetches)
    requires fetches > 0 ==> events <= Listing(logs, base, fetches - 1)
    requires forall k | 0 <= k < fetches :: |Listing(logs, base, k)| <= o.maxRecords
    ensures Faithful(logs, base, o, Collect(logs, base, o, fetches, events))
    decreases o.maxPages - fetches
  {
    hide PageOf, Filter, Reversed, Listing;
    FetchCount(logs, base, o, fetches, events);
    if fetches < o.maxPages && fetches < o.abortAfter {
      NextFetchCounts(logs, base, o, fetches, events);
      assert fetches > 0 ==> Listing(logs, base, fetches - 1) <= Listing(logs, base, fetches);
      FetchTakes(logs, base, o, fetches, events);
      var response := PageOf(logs[fetches], Request(base, o, |events|));
      var longer := events + response.events;
      if response.hasMore && response.total <= o.maxRecords {
        CollectIsFaithful(logs, base, o, fetches + 1, longer);
      }
    }
  }

  lemma NextFetchCounts(logs: seq<seq<Event>>, base: Query, o: Options, fetches: nat, events: seq<Event>)
    requires |logs| >= o.maxPages && fetches < o.maxPages && fetches < o.abortAfter
    ensures Collect(logs, base, o, fetches, events).1 >= fetches + 1
  {
    var response := PageOf(logs[fetches], Request(base, o, |events|));
    if response.Page? {
      FetchCount(logs, base, o, fetches + 1, events + response.events);
    }
  }

  /** A request the server refuses ends the export at its first fetch. */
  lemma RefusedAtOnce(logs: seq<seq<Event>>, base: Query, o: Options)
    requires |logs| >= o.maxPages && o.maxPages > 0 && o.abortAfter > 0 && !Acceptable(Request(base, o, 0))
    ensures Collect(logs, base, o, 0, []) == (Rejected, 1)
  {
  }

  // ---- Ascending exports over a growing log -------------------------------------------------

  /** Appending is all that happens to the log between fetches. */
  ghost predicate AppendOnly(logs: seq<seq<Event>>) {
    forall i, j | 0 <= i <= j < |logs| :: logs[i] <= logs[j]
  }

  lemma {:induction false} FilterGrows(log: seq<Event>, longer: seq<Event>, q: Query)
    requires log <= longer
    ensures Filter(log, q) <= Filter(longer, q)
    decreases |longer|
  {
    if |log| < |longer| {
      FilterGrows(log, longer[..|longer| - 1], q);
    } else {
      assert log == longer;
    }
  }

  /** Oldest first, over a log that keeps growing: a finished export is exactly the
      filtered log as the last fetch saw it (cut at the page limit, if that is what
      stopped it). */
  lemma {:induction false} AscendingExport(logs: seq<seq<Event>>, base: Query, o: Options)
    requires AppendOnly(logs) && |logs| >= o.maxPages && base.ascending && Acceptable(Request(base, o, 0))
    ensures Collect(logs, base, o, 0, []).1 <= |logs|
    ensures Faithful(logs, base, o, Collect(logs, base, o, 0, []))
  {
    FetchCount(logs, base, o, 0, []);
    forall i, j | 0 <= i <= j < |logs| ensures Listing(logs, base, i) <= Listing(logs, base, j) {
      FilterGrows(logs[i], logs[j], base);
    }
    CollectIsFaithful(logs, base, o, 0, []);
  }

  // ---- Descending exports ---------------------------------------------------------------

  /** Newest first, while the matching part of the log does not change: a finished
      export is exactly its reverse (or the first pages of it). */
  lemma {:induction false} DescendingExport(logs: seq<seq<Event>>, base: Query, o: Options)
    requires |logs| >= o.maxPages && Acceptable(Request(base, o, 0))
    requires Collect(logs, base, o, 0, []).1 <= |logs|
    requires forall k | 0 <= k < Collect(logs, base, o, 0, []).1 :: Filter(logs[k], base) == Filter(logs[0], base)
    ensures Faithful(logs, base, o, Collect(logs, base, o, 0, []))
  {
    CollectIsFaithful(logs, base, o, 0, []);
  }

  ghost predicate NoRepeats(events: seq<Event>) {
    forall i, j | 0 <= i < j < |events| :: events[i] != events[j]
  }

  lemma {:induction false} CollectExtends(logs: seq<seq<Event>>, base: Query, o: Options, fetches: nat, events: seq<Event>)
    requires |logs| >= o.maxPages
    ensures var result := Collect(logs, base, o, fetches, events).0;
            result.Collected? ==> events <= result.events
    decreases o.maxPages - fetches
  {
    if fetches < o.maxPages && fetches < o.abortAfter {
      var response := PageOf(logs[fetches], Request(base, o, |events|));
      if response.Page? {
        CollectExtends(logs, base, o, fetches + 1, events + response.events);
        assert events <= events + response.events;
      }
    }
  }

  /** A finished export begins with the first item of the first fetch's listing. */
  lemma StartsWithFirstListing(logs: seq<seq<Event>>, base: Query, o: Options)
    requires |logs| >= o.maxPages && o.maxPages > 0 && Acceptable(Request(base, o, 0))
    requires Collect(logs, base, o, 0, []).0.Collected? && |Listing(logs, base, 0)| > 0
    ensures var events := Collect(logs, base, o, 0, []).0.events;
            |events| > 0 && events[0] == Listing(logs, base, 0)[0]
  {
    hide PageOf, Filter, Reversed, Ordered, Listing;
    var response := PageOf(logs[0], Request(base, o, 0));
    FetchTakes(logs, base, o, 0, []);
    assert [] + response.events == response.events;
    CollectExtends(logs, base, o, 1, response.events);
  }

  lemma QuietThroughout(logs: seq<seq<Event>>, base: Query, n: nat)
    requires AppendOnly(logs) && 0 < n <= |logs| && Filter(logs[n - 1], base) == Filter(logs[0], base)
    ensures forall k | 0 <= k < n :: Filter(logs[k], base) == Filter(logs[0], base)
  {
    forall k | 0 <= k < n ensures Filter(logs[k], base) == Filter(logs[0], base) {
      FilterGrows(logs[0], logs[k], base);
      FilterGrows(logs[k], logs[n - 1], base);
    }
  }

  /** Item i of an export that ran to this length was taken by fetch k. */
  predicate TakenBy(o: Options, length: nat, k: nat, i: nat)
    requires o.pageSize >= 0
  {
    Capacity(o.pageSize, k) <= i < Capacity(o.pageSize, k + 1) && i < length
  }

  /** The place in the filtered log of item i as fetch k lists it, newest first. */
  function SourceOf(logs: seq<seq<Event>>, base: Query, k: nat, i: nat): int
    requires k < |logs|
  {
    |Filter(logs[k], base)| - 1 - i
  }

  lemma FetchAdds(logs: seq<seq<Event>>, base: Query, o: Options, fetches: nat, events: seq<Event>)
    requires fetches < |logs| && Acceptable(Request(base, o, 0))
    ensures var listing := Listing(logs, base, fetches);
            var response := PageOf(logs[fetches], Request(base, o, |events|));
            && response.Page?
            && response.events == (if |events| >= |listing| then []
                                   else listing[|events|..Min(|events| + o.pageSize, |listing|)])
            && (response.hasMore <==> |events| + o.pageSize < |listing|)
  {
    FilterIgnoresPaging(logs[fetches], base, o, |events|);
  }

  /** Each item taken by fetches `from` to n - 1 is the one listed at its place. */
  ghost predicate TakenInOrder(logs: seq<seq<Event>>, base: Query, o: Options, events: seq<Event>, from: nat, n: nat)
    requires n <= |logs| && o.pageSize >= 0
  {
    forall k: nat, i: nat | from <= k < n && TakenBy(o, |events|, k, i) ::
      i < |Listing(logs, base, k)| && events[i] == Listing(logs, base, k)[i]
  }

  lemma TakenTogether(
    logs: seq<seq<Event>>, base: Query, o: Options, events: seq<Event>, longer: seq<Event>, from: nat, n: nat)
    requires from < n <= |logs| && o.pageSize >= 0 && events <= longer && |events| >= Capacity(o.pageSize, from + 1)
    requires TakenInOrder(logs, base, o, events, from, from + 1) && TakenInOrder(logs, base, o, longer, from + 1, n)
    ensures TakenInOrder(logs, base, o, longer, from, n)
  {
    hide Listing, Capacity;
    forall k: nat, i: nat | from <= k < n && TakenBy(o, |longer|, k, i)
      ensures i < |Listing(logs, base, k)| && longer[i] == Listing(logs, base, k)[i]
    {
      if k == from {
        assert TakenBy(o, |events|, k, i);
      }
    }
  }

  /** Every item of a finished export comes from the listing of the fetch that took it. */
  lemma {:induction false} CollectTakes(logs: seq<seq<Event>>, base: Query, o: Options, fetches: nat, events: seq<Event>)
    requires |logs| >= o.maxPages && Acceptable(Request(base, o, 0)) && (fetches <= o.maxPages || fetches == 0)
    requires |events| == Capacity(o.pageSize, fetches)
    ensures var (result, n) := Collect(logs, base, o, fetches, events);
            n <= |logs| && (result.Collected? ==> TakenInOrder(logs, base, o, result.events, fetches, n))
    decreases o.maxPages - fetches
  {
    hide PageOf, Filter, Reversed, Listing;
    FetchCount(logs, base, o, fetches, events);
    if fetches < o.maxPages && fetches < o.abortAfter {
      FetchAdds(logs, base, o, fetches, events);
      var response := PageOf(logs[fetches], Request(base, o, |events|));
      var longer := events + response.events;
      assert TakenInOrder(logs, base, o, longer, fetches, fetches + 1);
      if response.hasMore {
        CollectTakes(logs, base, o, fetches + 1, longer);
        CollectExtends(logs, base, o, fetches + 1, longer);
        var (result, n) := Collect(logs, base, o, fetches + 1, longer);
        if result.Collected? && fetches + 1 <= n {
          TakenTogether(logs, base, o, longer, result.events, fetches, n);
        }
      }
    }
  }

  /** Item i is the event at the place where fetch k found it, in the filtered log of
      fetch `last` too. */
  ghost predicate FoundAt(logs: seq<seq<Event>>, base: Query, events: seq<Event>, k: nat, i: nat, last: nat)
    requires k < |logs| && last < |logs|
  {
    && i < |events| && 0 <= SourceOf(logs, base, k, i) < |Filter(logs[last], base)|
    && events[i] == Filter(logs[last], base)[SourceOf(logs, base, k, i)]
  }

  /** Newest first over an append-only log: every item is the matching event at the
      place its fetch saw it, which is a place in the last filtered log too. */
  lemma DescendingSources(logs: seq<seq<Event>>, base: Query, o: Options, k: nat, i: nat)
    requires AppendOnly(logs) && |logs| >= o.maxPages && !base.ascending && Acceptable(Request(base, o, 0))
    requires Collect(logs, base, o, 0, []).0.Collected? && k < Collect(logs, base, o, 0, []).1 <= |logs|
    requires TakenBy(o, |Collect(logs, base, o, 0, []).0.events|, k, i)
    ensures var (result, n) := Collect(logs, base, o, 0, []);
            FoundAt(logs, base, result.events, k, i, n - 1)
  {
    hide Collect, Filter;
    CollectTakes(logs, base, o, 0, []);
    FilterGrows(logs[k], logs[Collect(logs, base, o, 0, []).1 - 1], base);
  }

  /** Every item stands where the last fetch would list it. */
  ghost predicate InPlace(logs: seq<seq<Event>>, base: Query, o: Options, length: nat, n: nat)
    requires o.pageSize >= 0 && 0 < n <= |logs|
  {
    forall k: nat, i: nat | k < n && TakenBy(o, length, k, i) ::
      SourceOf(logs, base, k, i) == SourceOf(logs, base, n - 1, i)
  }

  /** Newest first over an append-only log, cut off or not: every item of a finished
      export stands where the last fetch would list it exactly when no matching event
      was appended between the first fetch and the last. */
  lemma {:induction false} DescendingNeedsQuiet(logs: seq<seq<Event>>, base: Query, o: Options)
    requires AppendOnly(logs) && |logs| >= o.maxPages && !base.ascending && Acceptable(Request(base, o, 0))
    requires Collect(logs, base, o, 0, []).0.Collected? && 0 < Collect(logs, base, o, 0, []).1 <= |logs|
    ensures var (result, n) := Collect(logs, base, o, 0, []);
            InPlace(logs, base, o, |result.events|, n) <==> Filter(logs[n - 1], base) == Filter(logs[0], base)
  {
    hide Collect, Filter;
    var (result, n) := Collect(logs, base, o, 0, []);
    var first, last := Filter(logs[0], base), Filter(logs[n - 1], base);
    FilterGrows(logs[0], logs[n - 1], base);
    FetchCount(logs, base, o, 0, []);
    if first == last {
      QuietThroughout(logs, base, n);
    } else if |first| == 0 {
      NothingToFetch(logs, base, o);
    } else {
      StartsWithFirstListing(logs, base, o);
      assert TakenBy(o, |result.events|, 0, 0);
    }
  }

  /** Read off the values: when no matching record is repeated, the export is the last
      listing (its first pages when cut off) exactly under the same condition. */
  lemma {:induction false} DescendingValuesNeedQuiet(logs: seq<seq<Event>>, base: Query, o: Options)
    requires AppendOnly(logs) && |logs| >= o.maxPages && !base.ascending && Acceptable(Request(base, o, 0))
    requires Collect(logs, base, o, 0, []).0.Collected? && 0 < Collect(logs, base, o, 0, []).1 <= |logs|
    requires NoRepeats(Filter(logs[Collect(logs, base, o, 0, []).1 - 1], base))
    ensures var (result, n) := Collect(logs, base, o, 0, []);
            var listing := Listing(logs, base, n - 1);
            result.events == listing[..Min(Capacity(o.pageSize, n), |listing|)] <==>
              Filter(logs[n - 1], base) == Filter(logs[0], base)
  {
    hide Collect, Filter, NoRepeats, Capacity;
    var (result, n) := Collect(logs, base, o, 0, []);
    var first, last := Filter(logs[0], base), Filter(logs[n - 1], base);
    FilterGrows(logs[0], logs[n - 1], base);
    FetchCount(logs, base, o, 0, []);
    if first == last {
      QuietThroughout(logs, base, n);
      DescendingExport(logs, base, o);
    } else if |first| == 0 {
      NothingToFetch(logs, base, o);
    } else {
      StartsWithFirstListing(logs, base, o);
      LastOfPrefixMoves(first, last);
    }
  }

  lemma LastOfPrefixMoves(first: seq<Event>, last: seq<Event>)
    requires first <= last && first != last && first != [] && NoRepeats(last)
    ensures first[|first| - 1] != last[|last| - 1]
  {
    assert first[|first| - 1] == last[|first| - 1];
  }

  lemma NothingToFetch(logs: seq<seq<Event>>, base: Query, o: Options)
    requires |logs| >= o.maxPages && o.maxPages > 0 && Acceptable(Request(base, o, 0)) && Filter(logs[0], base) == []
    ensures Collect(logs, base, o, 0, []).1 <= 1
  {
    FilterIgnoresPaging(logs[0], base, o, 0);
  }
}
