/**
 When the walk over the pages of a bucket finishes (internal/collectors/activitywatch.go, fetchEvents): the next request
 ends at the oldest instant of the page before, inclusive, so a page full of one instant cannot be left behind.
 */
module ActivityWatchProgress {
  import opened Ordering
  import opened ActivityWatchFetch
  import opened ActivityWatchServer

  /** A page of at most `limit` acceptable entries, with different ids from the start on. */
  ghost predicate CleanAnswer(start: int, end: int, limit: nat, answer: Response) {
    && answer.Page? && |answer.entries| <= limit
    && AllValid(answer.entries, start, end) && DistinctEntries(answer.entries, start)
  }

  ghost predicate DistinctEntries(entries: seq<Wire>, start: int) {
    forall i, j :: 0 <= i < j < |entries| && FromStart(entries[i], start) && FromStart(entries[j], start) ==>
      entries[i].event.id != entries[j].event.id
  }

  predicate FromStart(w: Wire, start: int) {
    w.Wire? && w.event.At() >= start
  }

  ghost predicate Clean(serve: Server, start: int, end: int, limit: nat) {
    forall k: nat, pageEnd: int :: pageEnd <= end ==> CleanAnswer(start, end, limit, serve(k, pageEnd))
  }

  // ----- counting the bucket -----

  ghost function RangeIds(world: set<Event>, start: int, end: int): set<int> {
    set e | e in world && InRange(e, start, end) :: e.id
  }

  /** The events of one instant. */
  ghost function TieIds(world: set<Event>, start: int, end: int, t: int): set<int> {
    set e | e in world && InRange(e, start, end) && e.At() == t :: e.id
  }

  ghost function EventOf(world: set<Event>, id: int): Event
    requires exists e :: e in world && e.id == id
  {
    var e :| e in world && e.id == id;
    e
  }

  /** The events of the range, by id. */
  ghost function Index(world: set<Event>, start: int, end: int): map<int, Event> {
    map id | id in RangeIds(world, start, end) :: EventOf(world, id)
  }

  ghost function RangeBytes(world: set<Event>, start: int, end: int): nat {
    SeenBytes(Index(world, start, end), Index(world, start, end).Keys)
  }

  /** The range fits the budgets of a fetch. */
  ghost predicate Fits(world: set<Event>, start: int, end: int, limits: Limits) {
    |RangeIds(world, start, end)| <= limits.eventLimit && RangeBytes(world, start, end) <= limits.byteBudget
  }

  lemma {:induction false} IndexedIs(world: set<Event>, start: int, end: int, e: Event)
    requires DistinctIds(world) && e in world && InRange(e, start, end)
    ensures e.id in Index(world, start, end) && Index(world, start, end)[e.id] == e
  {
    assert e.id in RangeIds(world, start, end);
    assert SameId(EventOf(world, e.id), e);
  }

  /** A seen event is one of the range, but for its duration. */
  lemma {:induction false} SeenIsShown(
      world: set<Event>, start: int, end: int, trims: bool, ends: map<int, int>, shown: Event)
    requires DistinctIds(world) && FirstShown(world, start, end, trims, ends, shown)
    ensures shown.id in Index(world, start, end) && Bytes(shown) == Bytes(Index(world, start, end)[shown.id])
  {
    var e :| e in world && IsShown(e, start, end, trims, ends, shown);
    IndexedIs(world, start, end, e);
  }

  /** What is seen is of the range, and costs what the range says. */
  lemma {:induction false} SeenIsIndexed(
      world: set<Event>, start: int, end: int, trims: bool, pageEnd: int, seen: map<int, Event>, ends: map<int, int>)
    requires DistinctIds(world) && Learned(world, start, end, trims, pageEnd, seen, ends)
    ensures seen.Keys <= RangeIds(world, start, end)
    ensures SeenBytes(seen, seen.Keys) == SeenBytes(Index(world, start, end), seen.Keys)
  {
    var index := Index(world, start, end);
    forall id | id in seen.Keys
      ensures id in index.Keys && Bytes(seen[id]) == Bytes(index[id])
    {
      assert seen[id].id == id;
      SeenIsShown(world, start, end, trims, ends, seen[id]);
    }
    SeenBytesSame(seen, index, seen.Keys);
  }

  lemma {:induction false} SeenAreFewer(
      world: set<Event>, start: int, end: int, trims: bool, pageEnd: int, seen: map<int, Event>, ends: map<int, int>)
    requires DistinctIds(world) && Learned(world, start, end, trims, pageEnd, seen, ends)
    ensures |seen| <= |RangeIds(world, start, end)|
    ensures forall e :: e in world && InRange(e, start, end) && e.id !in seen ==> |seen| < |RangeIds(world, start, end)|
  {
    SeenIsIndexed(world, start, end, trims, pageEnd, seen, ends);
    SubsetIsSmaller(seen.Keys, RangeIds(world, start, end));
    forall e | e in world && InRange(e, start, end) && e.id !in seen
      ensures |seen| < |RangeIds(world, start, end)|
    {
      assert e.id in RangeIds(world, start, end) - seen.Keys;
    }
  }

  lemma {:induction false} SeenBytesGrow(seen: map<int, Event>, some: set<int>, ids: set<int>)
    requires some <= ids <= seen.Keys
    ensures SeenBytes(seen, some) <= SeenBytes(seen, ids)
    decreases ids - some
  {
    if some != ids {
      assert some < ids && ids == some + (ids - some);
      HasIntUnlessEmpty(ids - some);
      var id :| id in ids - some;
      SeenBytesSplit(seen, ids, id);
      SeenBytesGrow(seen, some, ids - {id});
    }
  }

  // ----- a page that fits is taken -----

  lemma {:induction false} NewEventFits(
      world: set<Event>, start: int, end: int, trims: bool, limits: Limits, pageEnd: int, seen: map<int, Event>,
      used: int, ends: map<int, int>, e: Event)
    requires DistinctIds(world) && Learned(world, start, end, trims, pageEnd, seen, ends) && Accounts(seen, used)
    requires e in world && InRange(e, start, end) && e.id !in seen && Fits(world, start, end, limits)
    ensures |seen| < limits.eventLimit && Bytes(e) <= limits.byteBudget - used
  {
    var index := Index(world, start, end);
    SeenIsIndexed(world, start, end, trims, pageEnd, seen, ends);
    IndexedIs(world, start, end, e);
    SeenAreFewer(world, start, end, trims, pageEnd, seen, ends);
    OneMoreFits(index, seen.Keys, e.id);
  }

  lemma {:induction false} OneMoreFits(index: map<int, Event>, some: set<int>, id: int)
    requires some <= index.Keys && id in index && id !in some
    ensures SeenBytes(index, some) + Bytes(index[id]) <= SeenBytes(index, index.Keys)
  {
    SeenBytesSplit(index, some + {id}, id);
    assert some + {id} - {id} == some;
    SeenBytesGrow(index, some + {id}, index.Keys);
  }

  lemma SubsetIsSmaller(a: set<int>, b: set<int>)
    requires a <= b
    ensures |a| <= |b| && |b - a| == |b| - |a|
  {
    assert b == a + (b - a);
  }

  lemma {:induction false} PageIsTaken(
      world: set<Event>, start: int, end: int, trims: bool, limits: Limits, pageEnd: int, seen: map<int, Event>,
      used: int, ends: map<int, int>, entries: seq<Wire>, n: nat)
    requires DistinctIds(world) && pageEnd <= end && n <= |entries| && Fits(world, start, end, limits)
    requires Learned(world, start, end, trims, pageEnd, seen, ends) && Sound(seen, used, start, end, limits)
    requires ShowsBucket(world, start, pageEnd, trims, entries)
    requires AllValid(entries, start, end)
    ensures TakeFirst(seen, used, entries, n, start, end, limits).Holding?
  {
    if n > 0 {
      PageIsTaken(world, start, end, trims, limits, pageEnd, seen, used, ends, entries, n - 1);
      var r := TakeFirst(seen, used, entries, n - 1, start, end, limits);
      PrefixIsLearned(world, start, end, trims, limits, pageEnd, seen, used, ends, entries, n - 1);
      BucketShows(world, start, end, pageEnd, trims, entries, n - 1);
      EntryIsTaken(
        world, start, end, trims, limits, pageEnd, r.seen, r.used, WithEnds(r.seen, ends, pageEnd), entries[n - 1]);
    }
  }

  lemma {:induction false} PrefixIsLearned(
      world: set<Event>, start: int, end: int, trims: bool, limits: Limits, pageEnd: int, seen: map<int, Event>,
      used: int, ends: map<int, int>, entries: seq<Wire>, n: nat)
    requires DistinctIds(world) && pageEnd <= end && n <= |entries|
    requires Learned(world, start, end, trims, pageEnd, seen, ends) && Sound(seen, used, start, end, limits)
    requires ShowsBucket(world, start, pageEnd, trims, entries)
    requires TakeFirst(seen, used, entries, n, start, end, limits).Holding?
    ensures var r := TakeFirst(seen, used, entries, n, start, end, limits);
            && Learned(world, start, end, trims, pageEnd, r.seen, WithEnds(r.seen, ends, pageEnd))
            && Sound(r.seen, r.used, start, end, limits)
  {
    PageTeaches(world, start, end, trims, limits, pageEnd, seen, used, ends, entries, n);
    PageKeepsSound(seen, used, entries, n, start, end, limits);
  }

  predicate AllValid(entries: seq<Wire>, start: int, end: int) {
    forall i :: 0 <= i < |entries| ==> Valid(entries[i], start, end)
  }

  lemma {:induction false} BucketShows(
      world: set<Event>, start: int, end: int, pageEnd: int, trims: bool, entries: seq<Wire>, i: nat)
    requires ShowsBucket(world, start, pageEnd, trims, entries) && AllValid(entries, start, end) && i < |entries|
    ensures Valid(entries[i], start, end)
    ensures entries[i].event.At() >= start ==> ShowsSome(world, pageEnd, trims, entries[i].event)
  {
  }

  lemma {:induction false} EntryIsTaken(
      world: set<Event>, start: int, end: int, trims: bool, limits: Limits, pageEnd: int, seen: map<int, Event>,
      used: int, ends: map<int, int>, w: Wire)
    requires DistinctIds(world) && pageEnd <= end && Fits(world, start, end, limits)
    requires Learned(world, start, end, trims, pageEnd, seen, ends) && Sound(seen, used, start, end, limits)
    requires Valid(w, start, end) && (w.event.At() >= start ==> ShowsSome(world, pageEnd, trims, w.event))
    ensures Take(Holding(seen, used), w, start, end, limits).Holding?
  {
    if w.event.At() >= start {
      var e :| e in world && e.At() <= pageEnd && w.event == Shown(e, pageEnd, trims);
      if e.id in seen {
        SeenIsLongest(world, start, end, trims, pageEnd, seen, ends, e);
      } else {
        NewEventFits(world, start, end, trims, limits, pageEnd, seen, used, ends, e);
      }
    }
  }

  // ----- a full page brings something new -----

  /** Each entry from the start on has an id of its own. */
  lemma {:induction false} IdsCount(entries: seq<Wire>, n: nat, start: int)
    requires n <= |entries|
    ensures |IdsFrom(entries, n, start)| <= n
    ensures (exists i :: 0 <= i < n && !FromStart(entries[i], start)) ==> |IdsFrom(entries, n, start)| < n
    ensures DistinctEntries(entries, start) && (forall i :: 0 <= i < n ==> FromStart(entries[i], start)) ==>
              |IdsFrom(entries, n, start)| == n
  {
    if n > 0 {
      IdsCount(entries, n - 1, start);
      IdsOfOneMore(entries, n, start);
    }
  }

  lemma {:induction false} IdsOfOneMore(entries: seq<Wire>, n: nat, start: int)
    requires 0 < n <= |entries|
    ensures IdsFrom(entries, n, start) == IdsFrom(entries, n - 1, start)
              + if FromStart(entries[n - 1], start) then {entries[n - 1].event.id} else {}
  {
  }

  lemma {:induction false} OldestIsLeast(entries: seq<Wire>, n: nat, pageEnd: int, i: nat)
    requires i < n <= |entries| && entries[i].Wire?
    ensures Oldest(entries, n, pageEnd) <= entries[i].event.At()
  {
    if i < n - 1 {
      OldestIsLeast(entries, n - 1, pageEnd, i);
    }
  }

  lemma {:induction false} OldestAtLeast(entries: seq<Wire>, n: nat, pageEnd: int, t: int)
    requires n <= |entries| && t <= pageEnd
    requires forall i :: 0 <= i < n && entries[i].Wire? ==> entries[i].event.At() >= t
    ensures Oldest(entries, n, pageEnd) >= t
  {
    if n > 0 {
      OldestAtLeast(entries, n - 1, pageEnd, t);
    }
  }

  ghost predicate SeenFrom(seen: map<int, Event>, pageEnd: int) {
    forall id {:trigger seen[id]} :: id in seen ==> seen[id].At() >= pageEnd
  }

  lemma {:induction false} PageKeepsSeenFrom(
      seen: map<int, Event>, used: int, entries: seq<Wire>, n: nat, start: int, end: int, limits: Limits, pageEnd: int)
    requires n <= |entries| && SeenFrom(seen, pageEnd)
    ensures var r := TakeFirst(seen, used, entries, n, start, end, limits);
            r.Holding? ==> SeenFrom(r.seen, Oldest(entries, n, pageEnd))
  {
    if n > 0 {
      PageKeepsSeenFrom(seen, used, entries, n - 1, start, end, limits, pageEnd);
    }
  }

  /** Of a page, only ties at its end can have been seen before. */
  lemma {:induction false} OldIdsAreTies(
      world: set<Event>, start: int, end: int, trims: bool, pageEnd: int, seen: map<int, Event>, ends: map<int, int>,
      entries: seq<Wire>, i: nat)
    requires DistinctIds(world) && pageEnd <= end && i < |entries| && FromStart(entries[i], start)
    requires Learned(world, start, end, trims, pageEnd, seen, ends) && SeenFrom(seen, pageEnd)
    requires ShowsBucket(world, start, pageEnd, trims, entries)
    requires entries[i].event.id in seen || entries[i].event.At() >= pageEnd
    ensures entries[i].event.id in TieIds(world, start, end, pageEnd)
  {
    assert ShowsSome(world, pageEnd, trims, entries[i].event);
    var e :| e in world && e.At() <= pageEnd && entries[i].event == Shown(e, pageEnd, trims);
    if e.id in seen {
      SeenIsLongest(world, start, end, trims, pageEnd, seen, ends, e);
      assert seen[e.id].At() >= pageEnd;
    }
  }

  /** What every request leaves: `least` new events each time, and nothing older than the next end. */
  ghost predicate Advanced(
      world: set<Event>, start: int, end: int, trims: bool, limits: Limits, least: nat, k: nat, pageEnd: int,
      seen: map<int, Event>, used: int, ends: map<int, int>)
  {
    && pageEnd <= end && Learned(world, start, end, trims, pageEnd, seen, ends)
    && Sound(seen, used, start, end, limits) && SeenFrom(seen, pageEnd) && |seen| >= k * least
  }

  lemma {:induction false} FullPageAdvances(
      world: set<Event>, start: int, end: int, trims: bool, limits: Limits, ties: nat, pageEnd: int,
      seen: map<int, Event>, used: int, ends: map<int, int>, entries: seq<Wire>)
    requires DistinctIds(world) && pageEnd <= end
    requires Learned(world, start, end, trims, pageEnd, seen, ends) && SeenFrom(seen, pageEnd)
    requires ShowsBucket(world, start, pageEnd, trims, entries) && DistinctEntries(entries, start)
    requires |TieIds(world, start, end, pageEnd)| <= ties < |entries|
    requires forall i :: 0 <= i < |entries| ==> FromStart(entries[i], start)
    ensures Oldest(entries, |entries|, pageEnd) < pageEnd
    ensures |seen.Keys + IdsFrom(entries, |entries|, start)| >= |seen| + |entries| - ties
  {
    var page, tied := IdsFrom(entries, |entries|, start), TieIds(world, start, end, pageEnd);
    IdsCount(entries, |entries|, start);
    forall id | id in page && id in seen
      ensures id in tied
    {
      var i :| 0 <= i < |entries| && FromStart(entries[i], start) && entries[i].event.id == id;
      OldIdsAreTies(world, start, end, trims, pageEnd, seen, ends, entries, i);
    }
    Disjointly(seen.Keys, page, tied);
    if forall i :: 0 <= i < |entries| ==> entries[i].event.At() >= pageEnd {
      forall id | id in page
        ensures id in tied
      {
        var i :| 0 <= i < |entries| && FromStart(entries[i], start) && entries[i].event.id == id;
        OldIdsAreTies(world, start, end, trims, pageEnd, seen, ends, entries, i);
      }
      SubsetIsSmaller(page, tied);
    } else {
      var i :| 0 <= i < |entries| && entries[i].event.At() < pageEnd;
      OldestIsLeast(entries, |entries|, pageEnd, i);
    }
  }

  lemma {:induction false} Disjointly(seen: set<int>, page: set<int>, tied: set<int>)
    requires forall id :: id in page && id in seen ==> id in tied
    ensures |seen + page| >= |seen| + |page| - |tied|
  {
    SubsetIsSmaller(page * tied, page);
    SubsetIsSmaller(page * tied, tied);
    assert page - page * tied == page - tied;
    forall id | id in seen
      ensures id !in page - tied
    {
    }
    assert seen * (page - tied) == {};
    assert |seen + (page - tied)| == |seen| + |page - tied|;
    SubsetIsSmaller(seen + (page - tied), seen + page);
  }

  // ----- the walk -----

  /** A clean and faithful page that fits is taken in whole. */
  lemma {:induction false} PageIsLearned(
      world: set<Event>, start: int, end: int, trims: bool, limits: Limits, pageEnd: int, seen: map<int, Event>,
      used: int, ends: map<int, int>, entries: seq<Wire>)
    requires DistinctIds(world) && pageEnd <= end && Fits(world, start, end, limits)
    requires Learned(world, start, end, trims, pageEnd, seen, ends) && Sound(seen, used, start, end, limits)
    requires SeenFrom(seen, pageEnd) && ShowsBucket(world, start, pageEnd, trims, entries)
    requires AllValid(entries, start, end)
    ensures var r, oldest := TakePage(seen, used, entries, start, end, limits), Oldest(entries, |entries|, pageEnd);
            && r.Holding? && r.seen.Keys == seen.Keys + IdsFrom(entries, |entries|, start)
            && oldest <= pageEnd && Learned(world, start, end, trims, oldest, r.seen, WithEnds(r.seen, ends, pageEnd))
            && Sound(r.seen, r.used, start, end, limits) && SeenFrom(r.seen, oldest)
  {
    var n := |entries|;
    PageIsTaken(world, start, end, trims, limits, pageEnd, seen, used, ends, entries, n);
    PageTeaches(world, start, end, trims, limits, pageEnd, seen, used, ends, entries, n);
    PageKeepsSound(seen, used, entries, n, start, end, limits);
    PageKeepsSeenFrom(seen, used, entries, n, start, end, limits, pageEnd);
    TakenIds(seen, used, entries, n, start, end, limits);
    var r := TakePage(seen, used, entries, start, end, limits);
    LearnedLater(
      world, start, end, trims, pageEnd, Oldest(entries, n, pageEnd), r.seen, WithEnds(r.seen, ends, pageEnd));
  }

  /** A full page that shows nothing older than the start brings `least` new events. */
  lemma {:induction false} FullPageCounts(
      world: set<Event>, start: int, end: int, trims: bool, limits: Limits, ties: nat, k: nat, pageEnd: int,
      seen: map<int, Event>, used: int, ends: map<int, int>, entries: seq<Wire>)
    requires DistinctIds(world) && Fits(world, start, end, limits) && ties < limits.pageSize == |entries|
    requires Advanced(world, start, end, trims, limits, limits.pageSize - ties, k, pageEnd, seen, used, ends)
    requires ShowsBucket(world, start, pageEnd, trims, entries) && DistinctEntries(entries, start)
    requires AllValid(entries, start, end) && !ReachesStart(entries, |entries|, start)
    requires |TieIds(world, start, end, pageEnd)| <= ties
    ensures var r, oldest := TakePage(seen, used, entries, start, end, limits), Oldest(entries, |entries|, pageEnd);
            && r.Holding? && oldest < pageEnd && |r.seen| > |seen|
            && Advanced(world, start, end, trims, limits, limits.pageSize - ties, k + 1, oldest, r.seen, r.used,
                        WithEnds(r.seen, ends, pageEnd))
  {
    PageIsLearned(world, start, end, trims, limits, pageEnd, seen, used, ends, entries);
    NoneBeforeStart(entries, |entries|, start);
    FullPageAdvances(world, start, end, trims, limits, ties, pageEnd, seen, used, ends, entries);
    OneMoreTime(k, limits.pageSize - ties);
  }

  lemma {:induction false} AskTakes(
      entries: seq<Wire>, start: int, end: int, limits: Limits, pageEnd: int, seen: map<int, Event>, used: int,
      ends: map<int, int>, seen': map<int, Event>, used': int)
    requires entries != [] && TakePage(seen, used, entries, start, end, limits) == Holding(seen', used')
    ensures Ask(Page(entries), start, end, limits, pageEnd, seen, used, ends)
         == AfterPage(entries, start, limits, pageEnd, |seen|, seen', used', WithEnds(seen', ends, pageEnd))
  {
  }

  /** The walk finishes, or goes on with more than it had. */
  ghost predicate GoesOn(
      step: Step, world: set<Event>, start: int, end: int, trims: bool, limits: Limits, least: nat, k: nat)
  {
    match step
    case Over(walk) => walk.Finished?
    case Next(pageEnd, seen, used, ends) =>
      Advanced(world, start, end, trims, limits, least, k, pageEnd, seen, used, ends)
  }

  lemma {:induction false} AnswerAdvances(
      answer: Response, world: set<Event>, start: int, end: int, trims: bool, limits: Limits, ties: nat, k: nat,
      pageEnd: int, seen: map<int, Event>, used: int, ends: map<int, int>)
    requires DistinctIds(world) && Fits(world, start, end, limits) && ties < limits.pageSize
    requires FaithfulAnswer(world, start, pageEnd, limits.pageSize, trims, answer)
    requires CleanAnswer(start, end, limits.pageSize, answer)
    requires |TieIds(world, start, end, pageEnd)| <= ties
    requires Advanced(world, start, end, trims, limits, limits.pageSize - ties, k, pageEnd, seen, used, ends)
    ensures GoesOn(Ask(answer, start, end, limits, pageEnd, seen, used, ends), world, start, end, trims, limits,
                   limits.pageSize - ties, k + 1)
  {
    var entries := answer.entries;
    if entries != [] {
      PageIsTaken(world, start, end, trims, limits, pageEnd, seen, used, ends, entries, |entries|);
      var r := TakePage(seen, used, entries, start, end, limits);
      AskTakes(entries, start, end, limits, pageEnd, seen, used, ends, r.seen, r.used);
      if |entries| == limits.pageSize && !ReachesStart(entries, |entries|, start) {
        FullPageCounts(world, start, end, trims, limits, ties, k, pageEnd, seen, used, ends, entries);
      }
    }
  }

  lemma TimesGrows(a: nat, b: nat, c: nat)
    requires a <= b
    ensures a * c <= b * c
  {
  }

  lemma PagesLeft(k: nat, maxPages: nat, least: nat, n: nat)
    requires k * least <= n < maxPages * least
    ensures k < maxPages
  {
    if k >= maxPages {
      TimesGrows(maxPages, k, least);
      assert false;
    }
  }

  lemma OneMoreTime(k: nat, least: nat)
    ensures (k + 1) * least == k * least + least
  {
  }

  lemma {:induction false} NoneBeforeStart(entries: seq<Wire>, n: nat, start: int)
    requires n <= |entries| && !ReachesStart(entries, n, start)
    ensures forall i :: 0 <= i < n && entries[i].Wire? ==> FromStart(entries[i], start)
  {
    if n > 0 {
      NoneBeforeStart(entries, n - 1, start);
    }
  }

  lemma {:induction false} LearnedLater(
      world: set<Event>, start: int, end: int, trims: bool, pageEnd: int, older: int, seen: map<int, Event>,
      ends: map<int, int>)
    requires Learned(world, start, end, trims, pageEnd, seen, ends) && older <= pageEnd
    ensures Learned(world, start, end, trims, older, seen, ends)
  {
  }

  /** The range fits the budgets, and no instant of it has more than `ties` events. */
  ghost predicate FewTies(world: set<Event>, start: int, end: int, ties: nat) {
    forall t :: |TieIds(world, start, end, t)| <= ties
  }

  lemma {:induction false} WalkGoesOn(
      serve: Server, world: set<Event>, start: int, end: int, trims: bool, limits: Limits, ties: nat, k: nat,
      pageEnd: int, seen: map<int, Event>, used: int, ends: map<int, int>)
    requires DistinctIds(world) && Faithful(serve, world, start, limits.pageSize, trims)
    requires Clean(serve, start, end, limits.pageSize) && Fits(world, start, end, limits)
    requires FewTies(world, start, end, ties) && ties < limits.pageSize
    requires |RangeIds(world, start, end)| < limits.maxPages * (limits.pageSize - ties)
    requires k <= limits.maxPages
    requires Advanced(world, start, end, trims, limits, limits.pageSize - ties, k, pageEnd, seen, used, ends)
    ensures WalkFrom(serve, start, end, limits, k, pageEnd, seen, used, ends).Finished?
    decreases limits.maxPages - k
  {
    SeenAreFewer(world, start, end, trims, pageEnd, seen, ends);
    PagesLeft(k, limits.maxPages, limits.pageSize - ties, |RangeIds(world, start, end)|);
    AnswerAdvances(
      serve(k, pageEnd), world, start, end, trims, limits, ties, k, pageEnd, seen, used, ends);
    var step := Ask(serve(k, pageEnd), start, end, limits, pageEnd, seen, used, ends);
    if step.Next? {
      WalkGoesOn(
        serve, world, start, end, trims, limits, ties, k + 1, step.pageEnd, step.seen, step.used, step.ends);
    }
  }

  /**
   With at most `ties` events at each instant, fewer than a page, every full page brings `pageSize - ties` new events:
   the walk finishes when the range fits the budgets and that many per page cover it.
   */
  lemma {:induction false} WalkFinishes(
      serve: Server, world: set<Event>, start: int, end: int, trims: bool, limits: Limits, ties: nat)
    requires DistinctIds(world) && Faithful(serve, world, start, limits.pageSize, trims)
    requires Clean(serve, start, end, limits.pageSize) && Fits(world, start, end, limits)
    requires FewTies(world, start, end, ties) && ties < limits.pageSize
    requires |RangeIds(world, start, end)| < limits.maxPages * (limits.pageSize - ties)
    ensures WalkAll(serve, start, end, limits).Finished?
  {
    WalkGoesOn(serve, world, start, end, trims, limits, ties, 0, end, map[], 0, map[]);
  }

  // ----- a walk that cannot finish -----

  /** The walk is not over with success, and has not got past `t`. */
  ghost predicate HeldUp(step: Step, end: int, t: int) {
    match step
    case Over(walk) => walk.Stopped?
    case Next(pageEnd, _, _, _) => t <= pageEnd <= end
  }

  /** A page that ends at `t` or later and must show a page full of ties at `t` shows nothing older. */
  lemma {:induction false} TiesFillPage(
      world: set<Event>, start: int, end: int, trims: bool, limit: nat, pageEnd: int, entries: seq<Wire>, t: int)
    requires DistinctIds(world) && start <= t <= pageEnd <= end && |TieIds(world, start, end, t)| >= limit
    requires FaithfulPage(world, start, pageEnd, limit, trims, entries) && CleanAnswer(start, end, limit, Page(entries))
    ensures |entries| == limit && forall i :: 0 <= i < |entries| ==> entries[i].Wire? && entries[i].event.At() >= t
  {
    assert forall i :: 0 <= i < |entries| ==> Valid(entries[i], start, end);
    if forall id :: id in TieIds(world, start, end, t) ==> id in IdsFrom(entries, |entries|, start) {
      ShownTiesFillPage(world, start, end, trims, limit, pageEnd, entries, t);
    } else {
      var id :| id in TieIds(world, start, end, t) && id !in IdsFrom(entries, |entries|, start);
      var e :| e in world && InRange(e, start, end) && e.At() == t && e.id == id;
      MissingTieCrowds(start, trims, pageEnd, entries, e);
      assert Crowded(entries, limit, t);
    }
  }

  lemma {:induction false} MissingTieCrowds(start: int, trims: bool, pageEnd: int, entries: seq<Wire>, e: Event)
    requires e.At() >= start && e.id !in IdsFrom(entries, |entries|, start)
    ensures Wire(Shown(e, pageEnd, trims)) !in entries
  {
  }

  lemma {:induction false} ShownTiesFillPage(
      world: set<Event>, start: int, end: int, trims: bool, limit: nat, pageEnd: int, entries: seq<Wire>, t: int)
    requires DistinctIds(world) && |TieIds(world, start, end, t)| >= limit >= |entries|
    requires ShowsBucket(world, start, pageEnd, trims, entries)
    requires forall i :: 0 <= i < |entries| ==> entries[i].Wire?
    requires forall id :: id in TieIds(world, start, end, t) ==> id in IdsFrom(entries, |entries|, start)
    ensures |entries| == limit && forall i :: 0 <= i < |entries| ==> entries[i].event.At() == t
  {
    var page, tied := IdsFrom(entries, |entries|, start), TieIds(world, start, end, t);
    IdsCount(entries, |entries|, start);
    SubsetIsSmaller(tied, page);
    assert page == tied + (page - tied);
    forall i | 0 <= i < |entries|
      ensures entries[i].event.At() == t
    {
      assert FromStart(entries[i], start);
      assert entries[i].event.id in page;
      TieIsAt(world, start, end, trims, pageEnd, entries, i, t);
    }
  }

  lemma {:induction false} TieIsAt(
      world: set<Event>, start: int, end: int, trims: bool, pageEnd: int, entries: seq<Wire>, i: nat, t: int)
    requires DistinctIds(world) && ShowsBucket(world, start, pageEnd, trims, entries)
    requires i < |entries| && FromStart(entries[i], start)
    requires entries[i].event.id in TieIds(world, start, end, t)
    ensures entries[i].event.At() == t
  {
    assert ShowsSome(world, pageEnd, trims, entries[i].event);
    var e :| e in world && e.At() <= pageEnd && entries[i].event == Shown(e, pageEnd, trims);
    var f :| f in world && InRange(f, start, end) && f.At() == t && f.id == e.id;
    assert SameId(e, f);
  }

  lemma {:induction false} AnswerHoldsUp(
      answer: Response, world: set<Event>, start: int, end: int, trims: bool, limits: Limits, t: int, pageEnd: int,
      seen: map<int, Event>, used: int, ends: map<int, int>)
    requires DistinctIds(world) && start <= t <= pageEnd <= end && limits.pageSize > 0
    requires |TieIds(world, start, end, t)| >= limits.pageSize
    requires FaithfulAnswer(world, start, pageEnd, limits.pageSize, trims, answer)
    requires CleanAnswer(start, end, limits.pageSize, answer)
    ensures HeldUp(Ask(answer, start, end, limits, pageEnd, seen, used, ends), end, t)
  {
    var entries := answer.entries;
    TiesFillPage(world, start, end, trims, limits.pageSize, pageEnd, entries, t);
    OldestAtLeast(entries, |entries|, pageEnd, t);
    CrowdedBounds(entries, |entries|, t, pageEnd, start);
  }

  /** An instant with a page full of events cannot be passed. */
  lemma {:induction false} TiesNeverFinish(
      serve: Server, world: set<Event>, start: int, end: int, trims: bool, limits: Limits, t: int)
    requires DistinctIds(world) && Faithful(serve, world, start, limits.pageSize, trims)
    requires Clean(serve, start, end, limits.pageSize) && limits.pageSize > 0 && limits.maxPages > 0
    requires start <= t <= end && |TieIds(world, start, end, t)| >= limits.pageSize
    ensures WalkAll(serve, start, end, limits).Stopped?
  {
    forall k: nat, pageEnd: int, seen: map<int, Event>, used: int, ends: map<int, int> |
      HeldUp(Next(pageEnd, seen, used, ends), end, t)
      ensures HeldUp(Ask(serve(k, pageEnd), start, end, limits, pageEnd, seen, used, ends), end, t)
    {
      AnswerHoldsUp(serve(k, pageEnd), world, start, end, trims, limits, t, pageEnd, seen, used, ends);
    }
    WalkInduction(serve, start, end, limits, 0, end, map[], 0, map[], step => HeldUp(step, end, t));
  }

  /** A walk that finishes has seen the whole range, so the range fits. */
  lemma {:induction false} FinishedFits(
      serve: Server, world: set<Event>, start: int, end: int, trims: bool, limits: Limits)
    requires DistinctIds(world) && Faithful(serve, world, start, limits.pageSize, trims)
    requires limits.pageSize > 0 && limits.maxPages > 0 && limits.byteBudget >= 0
    requires WalkAll(serve, start, end, limits).Finished?
    ensures Fits(world, start, end, limits)
  {
    WalkTeaches(serve, world, start, end, trims, limits);
    WalkIsSound(serve, start, end, limits);
    var w, index := WalkAll(serve, start, end, limits), Index(world, start, end);
    forall id | id in w.seen.Keys
      ensures id in index.Keys && Bytes(w.seen[id]) == Bytes(index[id])
    {
      assert w.seen[id].id == id;
      SeenIsShown(world, start, end, trims, w.ends, w.seen[id]);
    }
    assert w.seen.Keys == RangeIds(world, start, end) == index.Keys;
    SeenBytesSame(w.seen, index, index.Keys);
  }

  /**
   With more pages than there are events in the range, the walk finishes if and only if the range fits the budgets and
   no instant of it has as many events as a page.
   */
  lemma {:induction false} WalkFinishesIff(
      serve: Server, world: set<Event>, start: int, end: int, trims: bool, limits: Limits)
    requires DistinctIds(world) && Faithful(serve, world, start, limits.pageSize, trims)
    requires Clean(serve, start, end, limits.pageSize)
    requires limits.pageSize > 0 && limits.byteBudget >= 0 && |RangeIds(world, start, end)| < limits.maxPages
    ensures WalkAll(serve, start, end, limits).Finished? <==>
              Fits(world, start, end, limits) && FewTies(world, start, end, limits.pageSize - 1)
  {
    if WalkAll(serve, start, end, limits).Finished? {
      FinishedFits(serve, world, start, end, trims, limits);
      forall t
        ensures |TieIds(world, start, end, t)| <= limits.pageSize - 1
      {
        if |TieIds(world, start, end, t)| >= limits.pageSize {
          var id :| id in TieIds(world, start, end, t);
          TiesNeverFinish(serve, world, start, end, trims, limits, t);
        }
      }
    } else if Fits(world, start, end, limits) && FewTies(world, start, end, limits.pageSize - 1) {
      WalkFinishes(serve, world, start, end, trims, limits, limits.pageSize - 1);
    }
  }
}
