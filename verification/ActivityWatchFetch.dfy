/**
 Backwards pagination over an ActivityWatch bucket (internal/collectors/activitywatch.go, fetchEvents).
 The server is a function from the request number and the requested end to an answer. Durations are nanoseconds.
 What a fetch means for a bucket is in ActivityWatchServer.
 */
module ActivityWatchFetch {
  import opened Ordering

  /** A timestamp text with the instant it decodes to; equal texts decode alike, so comparing stamps compares texts. */
  datatype Stamp = Stamp(text: string, at: int)

  /** An event of the bucket; `data` is its canonical JSON. */
  datatype Event = Event(id: int, stamp: Stamp, data: string, duration: int) {
    function At(): int { stamp.at }
  }

  /** One entry of a page; `Malformed` stands for a missing or undecodable field. */
  datatype Wire = Malformed | Wire(event: Event)

  datatype Code = RequestFailed | ResponseInvalid | BacklogLimit | PaginationStalled

  datatype Response = Failure(code: Code) | Page(entries: seq<Wire>)

  datatype Limits = Limits(pageSize: nat, maxPages: nat, eventLimit: nat, byteBudget: int)

  datatype FetchResult = Fetched(events: seq<Event>) | FetchFailed(code: Code)

  const MILLISECOND := 1_000_000
  const MAX_DURATION := 366 * 24 * 60 * 60 * 1_000_000_000

  /** One millisecond before the start, so that copies clipped at the request start stay outside the imported range. */
  function QueryStart(start: int): int {
    start / MILLISECOND * MILLISECOND - MILLISECOND
  }

  function Bytes(e: Event): nat {
    256 + |e.stamp.text| + |e.data|
  }

  predicate InRange(e: Event, start: int, end: int) {
    start <= e.At() <= end
  }

  /** What every event that was read satisfies. */
  predicate Sane(e: Event, start: int, end: int) {
    InRange(e, start, end) && 0 <= e.id && 0 <= e.duration
  }

  /** The event may still be extended at `end`. */
  predicate Open(e: Event, end: int) {
    e.At() + e.duration >= end
  }

  /** Source order: time, then id. */
  predicate Before(a: Event, b: Event) {
    a.At() < b.At() || (a.At() == b.At() && a.id < b.id)
  }

  ghost predicate Ordered(events: seq<Event>) {
    forall i, j :: 0 <= i < j < |events| ==> Before(events[i], events[j])
  }

  predicate SameIdentity(a: Event, b: Event) {
    a.id == b.id && a.stamp == b.stamp && a.data == b.data
  }

  type Server = (nat, int) -> Response

  // ----- the budget -----

  /** The bytes of the seen events add up to `used`. */
  ghost predicate Accounts(seen: map<int, Event>, used: int) {
    used == SeenBytes(seen, seen.Keys)
  }

  ghost function SeenBytes(seen: map<int, Event>, ids: set<int>): nat
    requires ids <= seen.Keys
    decreases ids
  {
    if ids == {} then 0
    else
      HasIntUnlessEmpty(ids);
      var id :| id in ids;
      Bytes(seen[id]) + SeenBytes(seen, ids - {id})
  }

  lemma {:induction false} SeenBytesSplit(seen: map<int, Event>, ids: set<int>, id: int)
    requires ids <= seen.Keys && id in ids
    ensures SeenBytes(seen, ids) == Bytes(seen[id]) + SeenBytes(seen, ids - {id})
    decreases ids
  {
    var other :| other in ids && SeenBytes(seen, ids) == Bytes(seen[other]) + SeenBytes(seen, ids - {other});
    if other != id {
      SeenBytesSplit(seen, ids - {other}, id);
      SeenBytesSplit(seen, ids - {id}, other);
      assert ids - {other} - {id} == ids - {id} - {other};
    }
  }

  lemma {:induction false} SeenBytesSame(seen: map<int, Event>, seen': map<int, Event>, ids: set<int>)
    requires ids <= seen.Keys && ids <= seen'.Keys
    requires forall id :: id in ids ==> Bytes(seen[id]) == Bytes(seen'[id])
    ensures SeenBytes(seen, ids) == SeenBytes(seen', ids)
    decreases ids
  {
    if ids != {} {
      HasIntUnlessEmpty(ids);
      var id :| id in ids && SeenBytes(seen, ids) == Bytes(seen[id]) + SeenBytes(seen, ids - {id});
      SeenBytesSame(seen, seen', ids - {id});
      SeenBytesSplit(seen', ids, id);
    }
  }

  lemma AccountsAfterNew(seen: map<int, Event>, used: int, event: Event)
    requires Accounts(seen, used) && event.id !in seen
    ensures Accounts(seen[event.id := event], used + Bytes(event))
  {
    var seen' := seen[event.id := event];
    SeenBytesSplit(seen', seen'.Keys, event.id);
    assert seen'.Keys - {event.id} == seen.Keys;
    SeenBytesSame(seen, seen', seen.Keys);
  }

  lemma AccountsAfterLonger(seen: map<int, Event>, used: int, event: Event)
    requires Accounts(seen, used) && event.id in seen && SameIdentity(event, seen[event.id])
    ensures Accounts(seen[event.id := event], used)
  {
    var seen' := seen[event.id := event];
    assert seen'.Keys == seen.Keys;
    SeenBytesSame(seen, seen', seen.Keys);
  }

  /** The events in hand add up to no more than the budgets. */
  function ListBytes(events: seq<Event>): nat {
    if |events| == 0 then 0 else ListBytes(events[..|events| - 1]) + Bytes(events[|events| - 1])
  }

  // ----- reading, as a function -----

  predicate Valid(w: Wire, start: int, end: int) {
    && w.Wire?
    && w.event.id >= 0 && 0 <= w.event.duration <= MAX_DURATION
    && QueryStart(start) <= w.event.At() <= end
  }

  /** The oldest instant among the first `n` entries, or the page end when none is older. */
  function Oldest(entries: seq<Wire>, n: nat, pageEnd: int): (r: int)
    requires n <= |entries|
    ensures r <= pageEnd
  {
    if n == 0 then pageEnd
    else
      var rest, last := Oldest(entries, n - 1, pageEnd), entries[n - 1];
      if last.Wire? && last.event.At() < rest then last.event.At() else rest
  }

  predicate ReachesStart(entries: seq<Wire>, n: nat, start: int)
    requires n <= |entries|
  {
    n > 0 && ((entries[n - 1].Wire? && entries[n - 1].event.At() < start) || ReachesStart(entries, n - 1, start))
  }

  /** What has been taken in so far, or the reason to give up. */
  datatype Reading = Refused(code: Code) | Holding(seen: map<int, Event>, used: int)

  /** One more entry: clipped copies from before the start are passed over, and a repeated id keeps its longest
      duration. */
  function Take(held: Reading, w: Wire, start: int, end: int, limits: Limits): Reading {
    if held.Refused? then held
    else if !Valid(w, start, end) then Refused(ResponseInvalid)
    else if w.event.At() < start then held
    else TakeEvent(held.seen, held.used, w.event, limits)
  }

  function TakeEvent(seen: map<int, Event>, used: int, e: Event, limits: Limits): Reading {
    if e.id in seen then
      if seen[e.id].stamp != e.stamp || seen[e.id].data != e.data then Refused(ResponseInvalid)
      else Holding(if e.duration > seen[e.id].duration then seen[e.id := e] else seen, used)
    else if |seen| >= limits.eventLimit || Bytes(e) > limits.byteBudget - used then Refused(BacklogLimit)
    else Holding(seen[e.id := e], used + Bytes(e))
  }

  /** The first `n` entries of a page. */
  function TakeFirst(
      seen: map<int, Event>, used: int, entries: seq<Wire>, n: nat, start: int, end: int, limits: Limits): Reading
    requires n <= |entries|
  {
    if n == 0 then Holding(seen, used)
    else Take(TakeFirst(seen, used, entries, n - 1, start, end, limits), entries[n - 1], start, end, limits)
  }

  function TakePage(seen: map<int, Event>, used: int, entries: seq<Wire>, start: int, end: int, limits: Limits): Reading
  {
    TakeFirst(seen, used, entries, |entries|, start, end, limits)
  }

  lemma {:induction false} RefusedStays(
      seen: map<int, Event>, used: int, entries: seq<Wire>, n: nat, m: nat, start: int, end: int, limits: Limits)
    requires n <= m <= |entries| && TakeFirst(seen, used, entries, n, start, end, limits).Refused?
    ensures TakeFirst(seen, used, entries, m, start, end, limits)
              == TakeFirst(seen, used, entries, n, start, end, limits)
    decreases m
  {
    if n < m {
      RefusedStays(seen, used, entries, n, m - 1, start, end, limits);
    }
  }

  /** How the requests go: `ends` has, for every id, the end of the request that showed it first. */
  datatype Walk = Stopped(code: Code) | Finished(seen: map<int, Event>, used: int, ends: map<int, int>)

  function WithEnds(seen: map<int, Event>, ends: map<int, int>, pageEnd: int): map<int, int> {
    map id | id in seen :: if id in ends then ends[id] else pageEnd
  }

  /** What one answer leads to: the end of the walk, or another request. */
  datatype Step = Over(walk: Walk) | Next(pageEnd: int, seen: map<int, Event>, used: int, ends: map<int, int>)

  function Ask(
      response: Response, start: int, end: int, limits: Limits, pageEnd: int, seen: map<int, Event>, used: int,
      ends: map<int, int>): Step
  {
    match response
    case Failure(code) => Over(Stopped(code))
    case Page(entries) =>
      if entries == [] then Over(Finished(seen, used, ends))
      else
        match TakePage(seen, used, entries, start, end, limits)
        case Refused(code) => Over(Stopped(code))
        case Holding(seen', used') => AfterPage(entries, start, limits, pageEnd, |seen|, seen', used',
            WithEnds(seen', ends, pageEnd))
  }

  /** A page that is not full, or shows something older than the start, was the last; a full one must bring progress. */
  function AfterPage(
      entries: seq<Wire>, start: int, limits: Limits, pageEnd: int, known: nat, seen: map<int, Event>, used: int,
      ends: map<int, int>): Step
  {
    var oldest := Oldest(entries, |entries|, pageEnd);
    if |entries| != limits.pageSize || ReachesStart(entries, |entries|, start) then Over(Finished(seen, used, ends))
    else if oldest >= pageEnd || |seen| == known then Over(Stopped(PaginationStalled))
    else Next(oldest, seen, used, ends)
  }

  /** Request `k`, which ends at `pageEnd`, and those after it. */
  function WalkFrom(
      serve: Server, start: int, end: int, limits: Limits, k: nat, pageEnd: int, seen: map<int, Event>, used: int,
      ends: map<int, int>): Walk
    decreases limits.maxPages - k
  {
    if k >= limits.maxPages then Stopped(BacklogLimit)
    else
      match Ask(serve(k, pageEnd), start, end, limits, pageEnd, seen, used, ends)
      case Over(walk) => walk
      case Next(oldest, seen', used', ends') => WalkFrom(serve, start, end, limits, k + 1, oldest, seen', used', ends')
  }

  function WalkAll(serve: Server, start: int, end: int, limits: Limits): Walk {
    if limits.maxPages == 0 then Finished(map[], 0, map[])
        else WalkFrom(serve, start, end, limits, 0, end, map[], 0, map[])
  }

  /** What every answer keeps holds when the walk is over. */
  lemma {:induction false} WalkInduction(
      serve: Server, start: int, end: int, limits: Limits, k: nat, pageEnd: int, seen: map<int, Event>, used: int,
      ends: map<int, int>, good: Step -> bool)
    requires good(Next(pageEnd, seen, used, ends)) && good(Over(Stopped(BacklogLimit)))
    requires forall k': nat, pageEnd': int, seen': map<int, Event>, used': int, ends': map<int, int> ::
               good(Next(pageEnd', seen', used', ends')) ==>
                 good(Ask(serve(k', pageEnd'), start, end, limits, pageEnd', seen', used', ends'))
    ensures good(Over(WalkFrom(serve, start, end, limits, k, pageEnd, seen, used, ends)))
    decreases limits.maxPages - k
  {
    if k < limits.maxPages {
      var step := Ask(serve(k, pageEnd), start, end, limits, pageEnd, seen, used, ends);
      if step.Next? {
        WalkInduction(serve, start, end, limits, k + 1, step.pageEnd, step.seen, step.used, step.ends, good);
      }
    }
  }

  /** `e` is among the seen events, and nothing up to it looks open. */
  ghost predicate Stands(seen: map<int, Event>, end: int, e: Event) {
    e.id in seen && seen[e.id] == e && forall id :: id in seen && !Before(e, seen[id]) ==> !Open(seen[id], end)
  }

  /** The seen events before the first that looks open, in source order. */
  ghost predicate IsStable(seen: map<int, Event>, end: int, events: seq<Event>) {
    Ordered(events) && forall e :: e in events <==> Stands(seen, end, e)
  }

  // ----- what a reading keeps -----

  /** The seen events are sane, listed by id, and within both budgets. */
  ghost predicate Sound(seen: map<int, Event>, used: int, start: int, end: int, limits: Limits) {
    && (forall id {:trigger seen[id]} :: id in seen ==> seen[id].id == id && Sane(seen[id], start, end))
    && Accounts(seen, used) && |seen| <= limits.eventLimit && (used == 0 || used <= limits.byteBudget)
  }

  lemma TakeKeepsSound(seen: map<int, Event>, used: int, w: Wire, start: int, end: int, limits: Limits)
    requires Sound(seen, used, start, end, limits)
    ensures var r := Take(Holding(seen, used), w, start, end, limits); r.Holding? ==>
              Sound(r.seen, r.used, start, end, limits)
  {
    if Valid(w, start, end) && w.event.At() >= start {
      if w.event.id in seen {
        if SameIdentity(w.event, seen[w.event.id]) {
          AccountsAfterLonger(seen, used, w.event);
        }
      } else {
        AccountsAfterNew(seen, used, w.event);
      }
    }
  }

  lemma {:induction false} PageKeepsSound(
      seen: map<int, Event>, used: int, entries: seq<Wire>, n: nat, start: int, end: int, limits: Limits)
    requires Sound(seen, used, start, end, limits) && n <= |entries|
    ensures var r := TakeFirst(seen, used, entries, n, start, end, limits);
            r.Holding? ==> Sound(r.seen, r.used, start, end, limits)
  {
    if n > 0 {
      PageKeepsSound(seen, used, entries, n - 1, start, end, limits);
      var r := TakeFirst(seen, used, entries, n - 1, start, end, limits);
      if r.Holding? {
        TakeKeepsSound(r.seen, r.used, entries[n - 1], start, end, limits);
      }
    }
  }

  ghost predicate SoundStep(step: Step, start: int, end: int, limits: Limits) {
    match step
    case Over(walk) => walk.Finished? ==> Sound(walk.seen, walk.used, start, end, limits)
    case Next(_, seen, used, _) => Sound(seen, used, start, end, limits)
  }

  lemma AnswerKeepsSound(
      response: Response, start: int, end: int, limits: Limits, pageEnd: int, seen: map<int, Event>, used: int,
      ends: map<int, int>)
    requires Sound(seen, used, start, end, limits)
    ensures SoundStep(Ask(response, start, end, limits, pageEnd, seen, used, ends), start, end, limits)
  {
    if response.Page? {
      PageKeepsSound(seen, used, response.entries, |response.entries|, start, end, limits);
    }
  }

  lemma WalkIsSound(serve: Server, start: int, end: int, limits: Limits)
    ensures SoundStep(Over(WalkAll(serve, start, end, limits)), start, end, limits)
  {
    forall k: nat, pageEnd: int, seen: map<int, Event>, used: int, ends: map<int, int> |
      SoundStep(Next(pageEnd, seen, used, ends), start, end, limits)
      ensures SoundStep(Ask(serve(k, pageEnd), start, end, limits, pageEnd, seen, used, ends), start, end, limits)
    {
      AnswerKeepsSound(serve(k, pageEnd), start, end, limits, pageEnd, seen, used, ends);
    }
    WalkInduction(serve, start, end, limits, 0, end, map[], 0, map[], step => SoundStep(step, start, end, limits));
  }

  lemma {:induction false} StablePrefixFits(seen: map<int, Event>, events: seq<Event>, ids: set<int>, used: int)
    requires ids <= seen.Keys && used == SeenBytes(seen, ids)
    requires forall i :: 0 <= i < |events| ==> events[i].id in ids && seen[events[i].id] == events[i]
    requires forall i, j :: 0 <= i < j < |events| ==> events[i].id != events[j].id
    ensures ListBytes(events) <= used && |events| <= |ids|
    decreases |events|
  {
    if |events| > 0 {
      var n := |events| - 1;
      var last := events[n];
      SeenBytesSplit(seen, ids, last.id);
      StablePrefixFits(seen, events[..n], ids - {last.id}, SeenBytes(seen, ids - {last.id}));
    }
  }

  /** A fetch that succeeds stays within both budgets, and returns sane, closed events only. */
  lemma FetchIsWithinBudgets(serve: Server, start: int, end: int, limits: Limits, events: seq<Event>)
    requires limits.byteBudget >= 0
    requires WalkAll(serve, start, end, limits).Finished?
             && IsStable(WalkAll(serve, start, end, limits).seen, end, events)
    ensures |events| <= limits.eventLimit && ListBytes(events) <= limits.byteBudget
    ensures forall e :: e in events ==> Sane(e, start, end) && !Open(e, end)
  {
    WalkIsSound(serve, start, end, limits);
    var w := WalkAll(serve, start, end, limits);
    assert Sound(w.seen, w.used, start, end, limits);
    forall i | 0 <= i < |events|
      ensures events[i].id in w.seen && w.seen[events[i].id] == events[i]
    {
      assert events[i] in events && Stands(w.seen, end, events[i]);
    }
    forall i, j | 0 <= i < j < |events|
      ensures events[i].id != events[j].id
    {
      assert Before(events[i], events[j]);
    }
    StablePrefixFits(w.seen, events, w.seen.Keys, w.used);
  }

  /** A first request that returns less than a page of acceptable entries is enough. */
  predicate ShortFirstPage(serve: Server, start: int, end: int, limits: Limits) {
    && limits.maxPages > 0
    && serve(0, end).Page? && |serve(0, end).entries| < limits.pageSize
    && FitsOnePage(serve(0, end).entries, start, end, limits)
  }

  /** Valid entries with different ids, within the budgets. */
  predicate FitsOnePage(entries: seq<Wire>, start: int, end: int, limits: Limits) {
    && (forall i :: 0 <= i < |entries| ==> Valid(entries[i], start, end))
    && (forall i, j :: 0 <= i < j < |entries| && entries[i].Wire? && entries[j].Wire? ==>
        entries[i].event.id != entries[j].event.id)
    && |entries| <= limits.eventLimit && WireBytes(entries, |entries|) <= limits.byteBudget
  }

  /** The bytes charged for the first `n` entries. */
  function WireBytes(entries: seq<Wire>, n: nat): nat
    requires n <= |entries|
  {
    if n == 0 then 0 else WireBytes(entries, n - 1) + if entries[n - 1].Wire? then Bytes(entries[n - 1].event) else 0
  }

  lemma {:induction false} WireBytesGrow(entries: seq<Wire>, n: nat)
    requires n <= |entries|
    ensures WireBytes(entries, n) <= WireBytes(entries, |entries|)
    decreases |entries| - n
  {
    if n < |entries| {
      WireBytesGrow(entries, n + 1);
    }
  }

  lemma {:induction false} FittingPageIsTaken(entries: seq<Wire>, n: nat, start: int, end: int, limits: Limits)
    requires FitsOnePage(entries, start, end, limits) && n <= |entries|
    ensures var r := TakeFirst(map[], 0, entries, n, start, end, limits);
            && r.Holding? && |r.seen| <= n && r.used <= WireBytes(entries, n)
            && forall id :: id in r.seen ==> exists k :: 0 <= k < n && entries[k].event.id == id
  {
    if n > 0 {
      FittingPageIsTaken(entries, n - 1, start, end, limits);
      WireBytesGrow(entries, n);
      var r := TakeFirst(map[], 0, entries, n - 1, start, end, limits);
      assert Valid(entries[n - 1], start, end);
      assert entries[n - 1].event.id !in r.seen;
    }
  }

  lemma ShortFirstPageSucceeds(serve: Server, start: int, end: int, limits: Limits)
    requires ShortFirstPage(serve, start, end, limits)
    ensures WalkAll(serve, start, end, limits).Finished?
  {
    var entries := serve(0, end).entries;
    FittingPageIsTaken(entries, |entries|, start, end, limits);
  }

  // ----- the code -----

  datatype PageResult =
    | PageFailed(code: Code)
    | PageRead(seen: map<int, Event>, usedBytes: int, oldest: int, newIds: nat, reachedStart: bool)

  /** The loop over one page. */
  method ReadPage(
      entries: seq<Wire>, start: int, end: int, pageEnd: int, limits: Limits, given: map<int, Event>, givenBytes: int)
    returns (r: PageResult)
    ensures match TakePage(given, givenBytes, entries, start, end, limits)
            case Refused(code) => r == PageFailed(code)
            case Holding(seen, used) =>
              && r.PageRead? && r.seen == seen && r.usedBytes == used
              && r.oldest == Oldest(entries, |entries|, pageEnd)
              && (r.newIds == 0 <==> |seen| == |given|)
              && (r.reachedStart <==> ReachesStart(entries, |entries|, start))
  {
    var seen, usedBytes := given, givenBytes;
    var oldest, newIds, reachedStart := pageEnd, 0, false;
    for i := 0 to |entries|
      invariant TakeFirst(given, givenBytes, entries, i, start, end, limits) == Holding(seen, usedBytes)
      invariant oldest == Oldest(entries, i, pageEnd)
      invariant reachedStart <==> ReachesStart(entries, i, start)
      invariant newIds >= 0 && |seen| == |given| + newIds
    {
      RefusalEndsPage(given, givenBytes, entries, i + 1, start, end, limits);
      if !entries[i].Wire? {
        return PageFailed(ResponseInvalid);
      }
      var event := entries[i].event;
      if event.id < 0 || event.duration < 0 || event.duration > MAX_DURATION {
        return PageFailed(ResponseInvalid);
      }
      if event.At() < QueryStart(start) || event.At() > end {
        return PageFailed(ResponseInvalid);
      }
      if event.At() < oldest {
        oldest := event.At();
      }
      if event.At() < start {
        reachedStart := true;
        continue;
      }
      if event.id in seen {
        var previous := seen[event.id];
        if previous.stamp != event.stamp || previous.data != event.data {
          return PageFailed(ResponseInvalid);
        }
        if event.duration > previous.duration {
          seen := seen[event.id := event];
        }
      } else {
        var eventBytes := Bytes(event);
        if |seen| >= limits.eventLimit || eventBytes > limits.byteBudget - usedBytes {
          return PageFailed(BacklogLimit);
        }
        seen := seen[event.id := event];
        usedBytes := usedBytes + eventBytes;
        newIds := newIds + 1;
      }
    }
    return PageRead(seen, usedBytes, oldest, newIds, reachedStart);
  }

  lemma RefusalEndsPage(
      seen: map<int, Event>, used: int, entries: seq<Wire>, n: nat, start: int, end: int, limits: Limits)
    requires n <= |entries|
    ensures var r := TakeFirst(seen, used, entries, n, start, end, limits);
            r.Refused? ==> TakePage(seen, used, entries, start, end, limits) == r
  {
    if TakeFirst(seen, used, entries, n, start, end, limits).Refused? {
      RefusedStays(seen, used, entries, n, |entries|, start, end, limits);
    }
  }

  datatype Collected = CollectFailed(code: Code) | Collected(seen: map<int, Event>)

  /** The request loop: pages backwards until everything in the range has been seen. */
  method CollectPages(serve: Server, start: int, end: int, limits: Limits) returns (r: Collected)
    ensures match WalkAll(serve, start, end, limits)
            case Stopped(code) => r == CollectFailed(code)
            case Finished(seen, _, _) => r == Collected(seen)
  {
    var seen: map<int, Event> := map[];
    var usedBytes := 0;
    ghost var ends: map<int, int> := map[];
    var pageEnd := end;
    var fullLastPage := false;
    var pageIndex := 0;
    while pageIndex < limits.maxPages
      invariant 0 <= pageIndex <= limits.maxPages
      invariant if pageIndex == 0 then seen == map[] && !fullLastPage else fullLastPage
      invariant limits.maxPages > 0 ==>
                  WalkAll(serve, start, end, limits)
                      == WalkFrom(serve, start, end, limits, pageIndex, pageEnd, seen, usedBytes, ends)
    {
      var response := serve(pageIndex, pageEnd);
      if response.Failure? {
        return CollectFailed(response.code);
      }
      var page := response.entries;
      if |page| == 0 {
        fullLastPage := false;
        break;
      }
      var read := ReadPage(page, start, end, pageEnd, limits, seen, usedBytes);
      if read.PageFailed? {
        return CollectFailed(read.code);
      }
      seen, usedBytes, ends := read.seen, read.usedBytes, WithEnds(read.seen, ends, pageEnd);
      fullLastPage := |page| == limits.pageSize;
      if read.reachedStart {
        fullLastPage := false;
        break;
      }
      if !fullLastPage {
        break;
      }
      if read.oldest >= pageEnd || read.newIds == 0 {
        return CollectFailed(PaginationStalled);
      }
      pageEnd := read.oldest;
      pageIndex := pageIndex + 1;
    }
    if fullLastPage {
      return CollectFailed(BacklogLimit);
    }
    return Collected(seen);
  }

  predicate NotAfter(a: Event, b: Event) {
    !Before(b, a)
  }

  method SortSeen(seen: map<int, Event>) returns (sorted: seq<Event>)
    requires forall id {:trigger seen[id].id} :: id in seen ==> seen[id].id == id
    ensures Ordered(sorted)
    ensures forall e :: e in sorted <==> e.id in seen && seen[e.id] == e
  {
    var result: seq<Event> := [];
    var remaining := set id | id in seen :: seen[id];
    assert forall id :: id in seen ==> seen[id].id == id;
    while remaining != {}
      invariant forall e :: e in result || e in remaining <==> e.id in seen && seen[e.id] == e
      invariant forall e :: e in result ==> e !in remaining
      invariant forall i, j :: 0 <= i < j < |result| ==> result[i] != result[j]
      decreases |remaining|
    {
      var event :| event in remaining;
      remaining := remaining - {event};
      result := result + [event];
    }
    sorted := SortSlice(result, NotAfter);
    SameMultiset(sorted, result);
    SortedIsOrdered(result, sorted);
  }

  lemma DistinctAfterSort(unsorted: seq<Event>, sorted: seq<Event>, i: nat, j: nat)
    requires forall i, j :: 0 <= i < j < |unsorted| ==> unsorted[i] != unsorted[j]
    requires multiset(sorted) == multiset(unsorted)
    requires i < j < |sorted|
    ensures sorted[i] != sorted[j]
  {
    if sorted[i] == sorted[j] {
      RepeatCountsTwice(sorted, i, j);
      DistinctCountsOnce(unsorted, sorted[i]);
    }
  }

  lemma SortedIsOrdered(unsorted: seq<Event>, sorted: seq<Event>)
    requires forall i, j :: 0 <= i < j < |unsorted| ==> unsorted[i] != unsorted[j]
    requires forall e, f :: e in unsorted && f in unsorted && e.id == f.id ==> e == f
    requires multiset(sorted) == multiset(unsorted)
    requires Sorted(NotAfter, sorted)
    ensures Ordered(sorted)
  {
    SameMultiset(sorted, unsorted);
    forall i, j | 0 <= i < j < |sorted|
      ensures Before(sorted[i], sorted[j])
    {
      assert NotAfter(sorted[i], sorted[j]);
      assert sorted[i] in unsorted && sorted[j] in unsorted;
      DistinctAfterSort(unsorted, sorted, i, j);
    }
  }

  /** `fetchEvents`: fails exactly as the walk over the pages does, and otherwise returns its stable events in source
      order. */
  method FetchEvents(serve: Server, start: int, end: int, limits: Limits) returns (r: FetchResult)
    ensures match WalkAll(serve, start, end, limits)
            case Stopped(code) => r == FetchFailed(code)
            case Finished(seen, _, _) => r.Fetched? && IsStable(seen, end, r.events)
  {
    WalkIsSound(serve, start, end, limits);
    var collected := CollectPages(serve, start, end, limits);
    if collected.CollectFailed? {
      return FetchFailed(collected.code);
    }
    var seen := collected.seen;
    var result := SortSeen(seen);
    var n := 0;
    while n < |result| && !Open(result[n], end)
      invariant 0 <= n <= |result|
      invariant forall i :: 0 <= i < n ==> !Open(result[i], end)
    {
      n := n + 1;
    }
    CutIsStable(seen, end, result, n);
    return Fetched(result[..n]);
  }

  lemma CutIsStable(seen: map<int, Event>, end: int, sorted: seq<Event>, n: nat)
    requires Ordered(sorted) && forall e :: e in sorted <==> e.id in seen && seen[e.id] == e
    requires forall id {:trigger seen[id]} :: id in seen ==> seen[id].id == id
    requires n <= |sorted| && (forall i :: 0 <= i < n ==> !Open(sorted[i], end))
    requires n < |sorted| ==> Open(sorted[n], end)
    ensures IsStable(seen, end, sorted[..n])
  {
    forall e
      ensures e in sorted[..n] <==> Stands(seen, end, e)
    {
      if i :| 0 <= i < n && sorted[i] == e {
        forall id | id in seen && !Before(e, seen[id])
          ensures !Open(seen[id], end)
        {
          assert seen[id] in sorted;
        }
      } else if k :| n <= k < |sorted| && sorted[k] == e {
        assert n < k ==> Before(sorted[n], sorted[k]);
        assert sorted[n] in sorted && !Before(e, seen[sorted[n].id]);
      }
    }
  }
}
