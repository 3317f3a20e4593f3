/**
 What a fetch means for a bucket (internal/collectors/activitywatch.go, fetchEvents): servers that answer with the
 newest events of a range, whole or cut at the end of the request, and the events that a successful fetch then
 returns.
 */
module ActivityWatchServer {
  import opened ActivityWatchFetch

  /** The bucket holds at most one event per id. */
  ghost predicate DistinctIds(world: set<Event>) {
    forall a, b {:trigger SameId(a, b)} :: a in world && b in world && SameId(a, b) ==> a == b
  }

  predicate SameId(a: Event, b: Event) {
    a.id == b.id
  }

  /** How a request that ends at `pageEnd` shows an event: whole, or cut at that end when the server trims. */
  function Shown(e: Event, pageEnd: int, trims: bool): Event {
    if trims && e.At() + e.duration > pageEnd then e.(duration := pageEnd - e.At()) else e
  }

  /**
   The answer holds the newest `limit` events of the inclusive range: every entry from `start` on shows an event
   of the bucket, and an event is missing only when the page is full and no entry is older.
   Entries before `start` may be clipped copies and are not constrained.
   */
  ghost predicate FaithfulPage(world: set<Event>, start: int, pageEnd: int, limit: nat, trims: bool, entries: seq<Wire>)
  {
    && ShowsBucket(world, start, pageEnd, trims, entries)
    && (forall e :: e in world && start <= e.At() <= pageEnd ==>
          Wire(Shown(e, pageEnd, trims)) in entries || Crowded(entries, limit, e.At()))
  }

  ghost predicate ShowsSome(world: set<Event>, pageEnd: int, trims: bool, shown: Event) {
    exists e :: e in world && e.At() <= pageEnd && shown == Shown(e, pageEnd, trims)
  }

  ghost predicate Crowded(entries: seq<Wire>, limit: nat, at: int) {
    && |entries| == limit
    && forall i :: 0 <= i < |entries| && entries[i].Wire? ==> entries[i].event.At() >= at
  }

  ghost predicate Faithful(serve: Server, world: set<Event>, start: int, limit: nat, trims: bool) {
    forall k: nat, pageEnd: int :: FaithfulAnswer(world, start, pageEnd, limit, trims, serve(k, pageEnd))
  }

  ghost predicate FaithfulAnswer(world: set<Event>, start: int, pageEnd: int, limit: nat, trims: bool, answer: Response)
  {
    answer.Page? ==> FaithfulPage(world, start, pageEnd, limit, trims, answer.entries)
  }

  // ----- what a walk learns -----

  /** The seen event is an event of the range, as the request that showed it first showed it. */
  ghost predicate FirstShown(world: set<Event>, start: int, end: int, trims: bool, ends: map<int, int>, shown: Event) {
    exists e {:trigger IsShown(e, start, end, trims, ends, shown)} ::
      e in world && IsShown(e, start, end, trims, ends, shown)
  }

  predicate IsShown(e: Event, start: int, end: int, trims: bool, ends: map<int, int>, shown: Event) {
    e.id in ends && InRange(e, start, end) && e.At() <= ends[e.id] <= end && shown == Shown(e, ends[e.id], trims)
  }

  /** Every seen event was shown first by a request that ends at `pageEnd` or later. */
  ghost predicate Learned(
      world: set<Event>, start: int, end: int, trims: bool, pageEnd: int, seen: map<int, Event>, ends: map<int, int>)
  {
    && seen.Keys == ends.Keys
    && (forall id {:trigger seen[id]} :: id in seen ==>
          seen[id].id == id && FirstShown(world, start, end, trims, ends, seen[id]) && pageEnd <= ends[id])
  }

  ghost predicate SeenAfter(world: set<Event>, start: int, end: int, seen: map<int, Event>, pageEnd: int) {
    forall e :: e in world && InRange(e, start, end) && e.At() > pageEnd ==> e.id in seen
  }

  ghost predicate SeenAll(world: set<Event>, start: int, end: int, seen: map<int, Event>) {
    forall e :: e in world && InRange(e, start, end) ==> e.id in seen
  }

  lemma EndsStay(seen: map<int, Event>, ends: map<int, int>, pageEnd: int)
    requires seen.Keys == ends.Keys
    ensures WithEnds(seen, ends, pageEnd) == ends
  {
  }

  /** A page shows a seen event no longer than the request that showed it first. */
  lemma SeenIsLongest(
      world: set<Event>, start: int, end: int, trims: bool, pageEnd: int, seen: map<int, Event>, ends: map<int, int>,
      e: Event)
    requires DistinctIds(world) && e in world && e.id in seen
    requires Learned(world, start, end, trims, pageEnd, seen, ends)
    ensures SameIdentity(seen[e.id], e) && Shown(e, pageEnd, trims).duration <= seen[e.id].duration
  {
    var f :| f in world && IsShown(f, start, end, trims, ends, seen[e.id]);
    assert SameId(f, e);
  }

  lemma NewIsLearned(
      world: set<Event>, start: int, end: int, trims: bool, pageEnd: int, seen: map<int, Event>, ends: map<int, int>,
      e: Event)
    requires Learned(world, start, end, trims, pageEnd, seen, ends)
    requires e in world && InRange(e, start, end) && e.At() <= pageEnd <= end && e.id !in seen
    ensures var seen' := seen[e.id := Shown(e, pageEnd, trims)];
            Learned(world, start, end, trims, pageEnd, seen', WithEnds(seen', ends, pageEnd))
  {
    var seen' := seen[e.id := Shown(e, pageEnd, trims)];
    var ends' := WithEnds(seen', ends, pageEnd);
    forall id | id in seen'
      ensures seen'[id].id == id && FirstShown(world, start, end, trims, ends', seen'[id]) && pageEnd <= ends'[id]
    {
      if id == e.id {
        assert IsShown(e, start, end, trims, ends', seen'[id]);
      } else {
        var f :| f in world && IsShown(f, start, end, trims, ends, seen[id]);
        assert IsShown(f, start, end, trims, ends', seen'[id]);
      }
    }
  }

  /** One more entry of a page that ends at `pageEnd`: what is seen stays as it was first shown. */
  lemma EntryTeaches(
      world: set<Event>, start: int, end: int, trims: bool, limits: Limits, pageEnd: int, seen: map<int, Event>,
      used: int, ends: map<int, int>, w: Wire)
    requires DistinctIds(world) && pageEnd <= end
    requires Learned(world, start, end, trims, pageEnd, seen, ends)
    requires w.Wire? && w.event.At() >= start ==> ShowsSome(world, pageEnd, trims, w.event)
    ensures var r := Take(Holding(seen, used), w, start, end, limits);
            r.Holding? ==>
              && Learned(world, start, end, trims, pageEnd, r.seen, WithEnds(r.seen, ends, pageEnd))
              && seen.Keys <= r.seen.Keys && (w.event.At() >= start ==> w.event.id in r.seen)
  {
    EndsStay(seen, ends, pageEnd);
    if Valid(w, start, end) && w.event.At() >= start {
      var e :| e in world && e.At() <= pageEnd && w.event == Shown(e, pageEnd, trims);
      if e.id in seen {
        SeenIsLongest(world, start, end, trims, pageEnd, seen, ends, e);
      } else {
        NewIsLearned(world, start, end, trims, pageEnd, seen, ends, e);
      }
    }
  }

  lemma EndsCompose(a: map<int, Event>, b: map<int, Event>, ends: map<int, int>, pageEnd: int)
    requires a.Keys <= b.Keys && ends.Keys <= a.Keys
    ensures WithEnds(b, WithEnds(a, ends, pageEnd), pageEnd) == WithEnds(b, ends, pageEnd)
  {
  }

  ghost predicate ShowsBucket(world: set<Event>, start: int, pageEnd: int, trims: bool, entries: seq<Wire>) {
    forall i :: 0 <= i < |entries| && entries[i].Wire? && entries[i].event.At() >= start ==>
      ShowsSome(world, pageEnd, trims, entries[i].event)
  }

  ghost predicate HasEntries(seen: map<int, Event>, start: int, entries: seq<Wire>, n: nat)
    requires n <= |entries|
  {
    forall i :: 0 <= i < n && entries[i].Wire? && entries[i].event.At() >= start ==> entries[i].event.id in seen
  }

  /** Taking in a faithful page. */
  lemma {:induction false} PageTeaches(
      world: set<Event>, start: int, end: int, trims: bool, limits: Limits, pageEnd: int, seen: map<int, Event>,
      used: int, ends: map<int, int>, entries: seq<Wire>, n: nat)
    requires DistinctIds(world) && pageEnd <= end && n <= |entries|
    requires Learned(world, start, end, trims, pageEnd, seen, ends)
             && ShowsBucket(world, start, pageEnd, trims, entries)
    ensures var r := TakeFirst(seen, used, entries, n, start, end, limits);
            r.Holding? ==>
              && Learned(world, start, end, trims, pageEnd, r.seen, WithEnds(r.seen, ends, pageEnd))
              && seen.Keys <= r.seen.Keys && HasEntries(r.seen, start, entries, n)
  {
    if n == 0 {
      EndsStay(seen, ends, pageEnd);
    } else {
      PageTeaches(world, start, end, trims, limits, pageEnd, seen, used, ends, entries, n - 1);
      var before := TakeFirst(seen, used, entries, n - 1, start, end, limits);
      var r := TakeFirst(seen, used, entries, n, start, end, limits);
      if before.Holding? && r.Holding? {
        EntryTeaches(world, start, end, trims, limits, pageEnd, before.seen, before.used,
            WithEnds(before.seen, ends, pageEnd), entries[n - 1]);
        EndsCompose(before.seen, r.seen, ends, pageEnd);
      }
    }
  }

  /** After a faithful page nothing newer than its oldest entry is missing; and nothing at all when the page is not full
      or shows an entry from before the start. */
  lemma PageCompletes(
      world: set<Event>, start: int, end: int, trims: bool, limit: nat, pageEnd: int, given: map<int, Event>,
      seen: map<int, Event>, entries: seq<Wire>)
    requires FaithfulPage(world, start, pageEnd, limit, trims, entries)
    requires given.Keys <= seen.Keys && HasEntries(seen, start, entries, |entries|)
    requires SeenAfter(world, start, end, given, pageEnd)
    ensures SeenAfter(world, start, end, seen, Oldest(entries, |entries|, pageEnd))
    ensures |entries| != limit || ReachesStart(entries, |entries|, start) ==> SeenAll(world, start, end, seen)
  {
    forall e | e in world && InRange(e, start, end) && e.id !in seen
      ensures e.At() <= Oldest(entries, |entries|, pageEnd) && |entries| == limit
              && !ReachesStart(entries, |entries|, start)
    {
      assert e.At() <= pageEnd;
      assert Wire(Shown(e, pageEnd, trims)) !in entries;
      CrowdedBounds(entries, |entries|, e.At(), pageEnd, start);
    }
  }

  lemma {:induction false} CrowdedBounds(entries: seq<Wire>, n: nat, at: int, pageEnd: int, start: int)
    requires n <= |entries|
    requires forall i :: 0 <= i < |entries| && entries[i].Wire? ==> entries[i].event.At() >= at
    requires start <= at <= pageEnd
    ensures at <= Oldest(entries, n, pageEnd) && !ReachesStart(entries, n, start)
  {
    if n > 0 {
      CrowdedBounds(entries, n - 1, at, pageEnd, start);
    }
  }

  /** What is known after a step: everything once the walk is over, everything newer than the next request before. */
  ghost predicate Taught(world: set<Event>, start: int, end: int, trims: bool, step: Step) {
    match step
    case Over(walk) => walk.Finished? ==> Complete(world, start, end, trims, walk.seen, walk.ends)
    case Next(pageEnd, seen, _, ends) =>
      pageEnd <= end && Learned(world, start, end, trims, pageEnd, seen, ends)
          && SeenAfter(world, start, end, seen, pageEnd)
  }

  /** A walk that finishes has seen the whole range, and nothing else, each event as it was shown first. */
  lemma WalkTeaches(serve: Server, world: set<Event>, start: int, end: int, trims: bool, limits: Limits)
    requires DistinctIds(world) && Faithful(serve, world, start, limits.pageSize, trims) && limits.pageSize > 0
             && limits.maxPages > 0
    ensures Taught(world, start, end, trims, Over(WalkAll(serve, start, end, limits)))
  {
    forall k: nat, pageEnd: int, seen: map<int, Event>, used: int, ends: map<int, int> |
      Taught(world, start, end, trims, Next(pageEnd, seen, used, ends))
      ensures Taught(world, start, end, trims, Ask(serve(k, pageEnd), start, end, limits, pageEnd, seen, used, ends))
    {
      AnswerTeaches(serve(k, pageEnd), world, start, end, trims, limits, pageEnd, seen, used, ends);
    }
    WalkInduction(serve, start, end, limits, 0, end, map[], 0, map[], step => Taught(world, start, end, trims, step));
  }

  /** One answer: the walk ends with everything seen, or goes on from the oldest entry. */
  lemma AnswerTeaches(
      response: Response, world: set<Event>, start: int, end: int, trims: bool, limits: Limits, pageEnd: int,
      seen: map<int, Event>, used: int, ends: map<int, int>)
    requires FaithfulAnswer(world, start, pageEnd, limits.pageSize, trims, response)
    requires DistinctIds(world) && limits.pageSize > 0
    requires Taught(world, start, end, trims, Next(pageEnd, seen, used, ends))
    ensures Taught(world, start, end, trims, Ask(response, start, end, limits, pageEnd, seen, used, ends))
  {
    if response.Page? {
      var entries := response.entries;
      PageTeaches(world, start, end, trims, limits, pageEnd, seen, used, ends, entries, |entries|);
      var r := TakePage(seen, used, entries, start, end, limits);
      if entries == [] {
      } else if r.Holding? {
        PageCompletes(world, start, end, trims, limits.pageSize, pageEnd, seen, r.seen, entries);
        var oldest := Oldest(entries, |entries|, pageEnd);
      }
    }
  }

  /** All of the range has been seen, and nothing else, each event as it was shown first. */
  ghost predicate Complete(
      world: set<Event>, start: int, end: int, trims: bool, seen: map<int, Event>, ends: map<int, int>)
  {
    && SeenAll(world, start, end, seen)
    && forall id {:trigger seen[id]} :: id in seen ==>
        seen[id].id == id && FirstShown(world, start, end, trims, ends, seen[id])
  }

  // ----- what a successful fetch means -----

  /** For every id, the end of the request that showed it first. */
  function PageEnds(serve: Server, start: int, end: int, limits: Limits): map<int, int> {
    match WalkAll(serve, start, end, limits)
    case Stopped(_) => map[]
    case Finished(_, _, ends) => ends
  }

  /** The event looks open as it was shown first. */
  predicate LooksOpen(e: Event, end: int, trims: bool, ends: map<int, int>) {
    e.id in ends && Open(Shown(e, ends[e.id], trims), end)
  }

  /** An event is reported when nothing up to it, itself included, looks open. */
  ghost predicate Reported(world: set<Event>, start: int, end: int, trims: bool, ends: map<int, int>, e: Event) {
    && e in world && InRange(e, start, end)
    && forall e' :: e' in world && InRange(e', start, end) && !Before(e, e') ==> !LooksOpen(e', end, trims, ends)
  }

  /** The longest prefix, in source order, of the events of the range that are all closed. */
  ghost predicate InClosedPrefix(world: set<Event>, start: int, end: int, e: Event) {
    && e in world && InRange(e, start, end)
    && forall e' :: e' in world && InRange(e', start, end) && !Before(e, e') ==> !Open(e', end)
  }

  /** `shown` is a reported event, as it was shown first. */
  ghost predicate ReportedAs(world: set<Event>, start: int, end: int, trims: bool, ends: map<int, int>, shown: Event) {
    exists e :: Reported(world, start, end, trims, ends, e) && e.id in ends && shown == Shown(e, ends[e.id], trims)
  }

  /** The events are the reported ones, each as it was shown first, and every event of the range was shown. */
  ghost predicate Reports(world: set<Event>, start: int, end: int, trims: bool, ends: map<int, int>, events: seq<Event>)
  {
    && Ordered(events)
    && (forall e :: e in world && InRange(e, start, end) ==> e.id in ends && e.At() <= ends[e.id] <= end)
    && forall x :: x in events <==> ReportedAs(world, start, end, trims, ends, x)
  }

  lemma SeenFromBucket(
      world: set<Event>, start: int, end: int, trims: bool, seen: map<int, Event>, ends: map<int, int>, e: Event)
    requires DistinctIds(world) && Complete(world, start, end, trims, seen, ends)
    requires e in world && InRange(e, start, end)
    ensures e.id in seen && IsShown(e, start, end, trims, ends, seen[e.id])
  {
    var f :| f in world && IsShown(f, start, end, trims, ends, seen[e.id]);
    assert SameId(f, e);
  }

  lemma StandsIffReported(
      world: set<Event>, start: int, end: int, trims: bool, seen: map<int, Event>, ends: map<int, int>, x: Event)
    requires DistinctIds(world) && Complete(world, start, end, trims, seen, ends)
    ensures Stands(seen, end, x) <==> ReportedAs(world, start, end, trims, ends, x)
  {
    forall e | e in world && InRange(e, start, end)
      ensures e.id in seen && IsShown(e, start, end, trims, ends, seen[e.id])
    {
      SeenFromBucket(world, start, end, trims, seen, ends, e);
    }
    if Stands(seen, end, x) {
      var e :| e in world && IsShown(e, start, end, trims, ends, seen[x.id]);
      forall e' | e' in world && InRange(e', start, end) && !Before(e, e')
        ensures !LooksOpen(e', end, trims, ends)
      {
        assert !Before(x, seen[e'.id]);
      }
      assert Reported(world, start, end, trims, ends, e);
    }
    if ReportedAs(world, start, end, trims, ends, x) {
      var e :| Reported(world, start, end, trims, ends, e) && e.id in ends && x == Shown(e, ends[e.id], trims);
      assert seen[e.id] == x;
      forall id | id in seen && !Before(x, seen[id])
        ensures !Open(seen[id], end)
      {
        var f :| f in world && IsShown(f, start, end, trims, ends, seen[id]);
        assert !LooksOpen(f, end, trims, ends);
      }
    }
  }

  /** Against a faithful server a fetch that succeeds returns just the reported events, each as it was shown first. */
  lemma FetchReports(
      serve: Server, world: set<Event>, start: int, end: int, trims: bool, limits: Limits, events: seq<Event>)
    requires limits.pageSize > 0 && limits.maxPages > 0
    requires DistinctIds(world) && Faithful(serve, world, start, limits.pageSize, trims)
    requires WalkAll(serve, start, end, limits).Finished?
             && IsStable(WalkAll(serve, start, end, limits).seen, end, events)
    ensures Reports(world, start, end, trims, PageEnds(serve, start, end, limits), events)
  {
    WalkTeaches(serve, world, start, end, trims, limits);
    var w := WalkAll(serve, start, end, limits);
    forall e | e in world && InRange(e, start, end)
      ensures e.id in w.ends && e.At() <= w.ends[e.id] <= end
    {
      SeenFromBucket(world, start, end, trims, w.seen, w.ends, e);
    }
    forall x
      ensures x in events <==> ReportedAs(world, start, end, trims, w.ends, x)
    {
      StandsIffReported(world, start, end, trims, w.seen, w.ends, x);
    }
  }

  ghost predicate IsClosedPrefix(world: set<Event>, start: int, end: int, events: seq<Event>) {
    Ordered(events) && forall x :: x in events <==> InClosedPrefix(world, start, end, x)
  }

  /** A server that shows events whole: the fetch returns exactly the closed prefix. */
  lemma WholeServerIsExact(world: set<Event>, start: int, end: int, ends: map<int, int>, events: seq<Event>)
    requires Reports(world, start, end, false, ends, events)
    ensures IsClosedPrefix(world, start, end, events)
  {
    forall x
      ensures ReportedAs(world, start, end, false, ends, x) <==> InClosedPrefix(world, start, end, x)
    {
      if InClosedPrefix(world, start, end, x) {
        assert Reported(world, start, end, false, ends, x);
      }
    }
  }

  ghost predicate OpenInRange(world: set<Event>, start: int, end: int, e: Event) {
    e in world && InRange(e, start, end) && Open(e, end)
  }

  /** `e` is the first event of the range, in source order, that is still open. */
  ghost predicate FirstOpen(world: set<Event>, start: int, end: int, e: Event) {
    OpenInRange(world, start, end, e) && forall e' :: OpenInRange(world, start, end, e') ==> !Before(e', e)
  }

  lemma {:induction false} SomeFirstOpen(world: set<Event>, start: int, end: int, rest: set<Event>, e: Event)
    returns (m: Event)
    requires rest <= world && OpenInRange(world, start, end, e)
    requires forall e' :: OpenInRange(world, start, end, e') && Before(e', e) ==> e' in rest
    ensures FirstOpen(world, start, end, m) && !Before(e, m)
    decreases rest
  {
    if e' :| OpenInRange(world, start, end, e') && Before(e', e) {
      m := SomeFirstOpen(world, start, end, rest - {e'}, e');
    } else {
      m := e;
    }
  }

  /** The first open event, if there is one, was on the first page. */
  ghost predicate OpenOnFirstPage(world: set<Event>, start: int, end: int, ends: map<int, int>) {
    forall m :: FirstOpen(world, start, end, m) ==> EndsAt(ends, m.id, end)
  }

  /** Every event of the closed prefix had ended by the end of the request that showed it first. */
  ghost predicate NoneCut(world: set<Event>, start: int, end: int, ends: map<int, int>) {
    forall e :: InClosedPrefix(world, start, end, e) ==> e.id in ends && e.At() + e.duration <= ends[e.id]
  }

  /**
   A server that cuts durations at the end of each request: the right events are reported if and only if the first open
   event was on the first page.
   */
  lemma RightEventsIff(world: set<Event>, start: int, end: int, ends: map<int, int>)
    requires DistinctIds(world)
    requires forall e :: e in world && InRange(e, start, end) ==> e.id in ends && e.At() <= ends[e.id] <= end
    ensures (forall e :: Reported(world, start, end, true, ends, e) <==> InClosedPrefix(world, start, end, e))
       <==> OpenOnFirstPage(world, start, end, ends)
  {
    if OpenOnFirstPage(world, start, end, ends) {
      forall e
        ensures Reported(world, start, end, true, ends, e) <==> InClosedPrefix(world, start, end, e)
      {
        if e in world && InRange(e, start, end) && !InClosedPrefix(world, start, end, e) {
          var e' :| e' in world && InRange(e', start, end) && !Before(e, e') && Open(e', end);
          var m := SomeFirstOpen(world, start, end, world, e');
          assert LooksOpen(m, end, true, ends) && !Before(e, m);
        }
      }
    } else {
      var m :| FirstOpen(world, start, end, m) && !EndsAt(ends, m.id, end);
      assert !InClosedPrefix(world, start, end, m);
      forall e' | e' in world && InRange(e', start, end) && !Before(m, e')
        ensures !LooksOpen(e', end, true, ends)
      {
        assert OpenInRange(world, start, end, e') ==> !Before(e', m);
        assert OpenInRange(world, start, end, e') && e'.id == m.id ==> SameId(e', m);
        assert OpenInRange(world, start, end, e') ==> e'.id == m.id;
      }
      assert Reported(world, start, end, true, ends, m);
    }
  }

  /**
   A server that cuts durations at the end of each request: the fetch returns exactly the closed prefix, durations
   included, if and only if the first open event was on the first page, and every event of the prefix had ended by the
   end of the request that showed it first.
   */
  lemma TrimmingServerIsExactIff(world: set<Event>, start: int, end: int, ends: map<int, int>, events: seq<Event>)
    requires DistinctIds(world) && Reports(world, start, end, true, ends, events)
    ensures IsClosedPrefix(world, start, end, events) <==>
              OpenOnFirstPage(world, start, end, ends) && NoneCut(world, start, end, ends)
  {
    RightEventsIff(world, start, end, ends);
    if OpenOnFirstPage(world, start, end, ends) && NoneCut(world, start, end, ends) {
      forall x
        ensures ReportedAs(world, start, end, true, ends, x) <==> InClosedPrefix(world, start, end, x)
      {
        if InClosedPrefix(world, start, end, x) {
          assert Reported(world, start, end, true, ends, x);
        }
      }
    }
    if IsClosedPrefix(world, start, end, events) {
      ExactEventsAreWhole(world, start, end, ends, events);
    }
  }

  lemma ExactEventsAreWhole(world: set<Event>, start: int, end: int, ends: map<int, int>, events: seq<Event>)
    requires DistinctIds(world) && Reports(world, start, end, true, ends, events)
             && IsClosedPrefix(world, start, end, events)
    ensures NoneCut(world, start, end, ends)
    ensures forall e :: Reported(world, start, end, true, ends, e) <==> InClosedPrefix(world, start, end, e)
  {
    forall e
      ensures Reported(world, start, end, true, ends, e) ==> InClosedPrefix(world, start, end, e)
      ensures InClosedPrefix(world, start, end, e) ==>
                Reported(world, start, end, true, ends, e) && e.At() + e.duration <= ends[e.id]
    {
      if Reported(world, start, end, true, ends, e) {
        var x := Shown(e, ends[e.id], true);
        assert ReportedAs(world, start, end, true, ends, x) && x in events;
        assert InClosedPrefix(world, start, end, x);
        assert SameId(x, e);
      }
      if InClosedPrefix(world, start, end, e) {
        assert e in events && ReportedAs(world, start, end, true, ends, e);
        var f :| Reported(world, start, end, true, ends, f) && f.id in ends && e == Shown(f, ends[f.id], true);
        assert SameId(f, e);
      }
    }
  }

  /** The page ends single out the first page. */
  lemma EndIsFirstPage(serve: Server, start: int, end: int, limits: Limits, id: int)
    requires WalkAll(serve, start, end, limits).Finished? && limits.maxPages > 0
    ensures EndsAt(PageEnds(serve, start, end, limits), id, end) <==>
             serve(0, end).Page? && id in IdsFrom(serve(0, end).entries, |serve(0, end).entries|, start)
  {
    var stamped := serve(0, end).Page? && id in IdsFrom(serve(0, end).entries, |serve(0, end).entries|, start);
    FirstEnds(serve(0, end), start, end, limits, id, stamped);
    var step := Ask(serve(0, end), start, end, limits, end, map[], 0, map[]);
    if step.Next? {
      LaterEnds(serve, start, end, limits, 1, step.pageEnd, step.seen, step.used, step.ends, id, stamped);
    }
  }

  /** The first answer stamps its own ids, and no others, with the end. */
  lemma FirstEnds(response: Response, start: int, end: int, limits: Limits, id: int, stamped: bool)
    requires stamped <==> response.Page? && id in IdsFrom(response.entries, |response.entries|, start)
    ensures KeepsEnd(Ask(response, start, end, limits, end, map[], 0, map[]), end, id, stamped)
  {
    if response.Page? {
      TakenIds(map[], 0, response.entries, |response.entries|, start, end, limits);
    }
  }

  predicate EndsAt(ends: map<int, int>, id: int, end: int) {
    id in ends && ends[id] == end
  }

  /** The ids that the first `n` entries show from the start on. */
  function IdsFrom(entries: seq<Wire>, n: nat, start: int): set<int>
    requires n <= |entries|
  {
    set i | 0 <= i < n && entries[i].Wire? && entries[i].event.At() >= start :: entries[i].event.id
  }

  lemma TakenId(seen: map<int, Event>, used: int, w: Wire, start: int, end: int, limits: Limits)
    ensures var r := Take(Holding(seen, used), w, start, end, limits);
            r.Holding? ==> r.seen.Keys == seen.Keys + if w.event.At() >= start then {w.event.id} else {}
  {
  }

  lemma {:induction false} TakenIds(
      seen: map<int, Event>, used: int, entries: seq<Wire>, n: nat, start: int, end: int, limits: Limits)
    requires n <= |entries|
    ensures var r := TakeFirst(seen, used, entries, n, start, end, limits);
            r.Holding? ==> r.seen.Keys == seen.Keys + IdsFrom(entries, n, start)
  {
    if n > 0 {
      TakenIds(seen, used, entries, n - 1, start, end, limits);
      var before := TakeFirst(seen, used, entries, n - 1, start, end, limits);
      if before.Holding? && entries[n - 1].Wire? {
        TakenId(before.seen, before.used, entries[n - 1], start, end, limits);
      }
    }
  }

  /** The id keeps or lacks the stamp of the first request. */
  predicate KeepsEnd(step: Step, end: int, id: int, stamped: bool) {
    match step
    case Over(walk) => walk.Finished? ==> (EndsAt(walk.ends, id, end) <==> stamped)
    case Next(pageEnd, seen, _, ends) => pageEnd < end && seen.Keys == ends.Keys && (EndsAt(ends, id, end) <==> stamped)
  }

  lemma LaterEnds(
      serve: Server, start: int, end: int, limits: Limits, k: nat, pageEnd: int, seen: map<int, Event>, used: int,
      ends: map<int, int>, id: int, stamped: bool)
    requires KeepsEnd(Next(pageEnd, seen, used, ends), end, id, stamped)
    ensures KeepsEnd(Over(WalkFrom(serve, start, end, limits, k, pageEnd, seen, used, ends)), end, id, stamped)
  {
    forall k': nat, pageEnd': int, seen': map<int, Event>, used': int, ends': map<int, int> |
      KeepsEnd(Next(pageEnd', seen', used', ends'), end, id, stamped)
      ensures KeepsEnd(Ask(serve(k', pageEnd'), start, end, limits, pageEnd', seen', used', ends'), end, id, stamped)
    {
      AnswerKeepsEnd(serve(k', pageEnd'), start, end, limits, pageEnd', seen', used', ends', id, stamped);
    }
    WalkInduction(serve, start, end, limits, k, pageEnd, seen, used, ends, step => KeepsEnd(step, end, id, stamped));
  }

  lemma {:induction false} AnswerKeepsEnd(
      response: Response, start: int, end: int, limits: Limits, pageEnd: int, seen: map<int, Event>, used: int,
      ends: map<int, int>, id: int, stamped: bool)
    requires KeepsEnd(Next(pageEnd, seen, used, ends), end, id, stamped)
    ensures KeepsEnd(Ask(response, start, end, limits, pageEnd, seen, used, ends), end, id, stamped)
  {
    if response.Page? {
      var entries := response.entries;
      TakenIds(seen, used, entries, |entries|, start, end, limits);
      var r := TakePage(seen, used, entries, start, end, limits);
      if r.Holding? {
        LaterPageKeepsEnd(
          entries, start, limits, pageEnd, |seen|, r.seen, r.used, ends, WithEnds(r.seen, ends, pageEnd), end, id);
      }
    }
  }

  /** A later request stamps no id with the end of the first one. */
  lemma {:induction false} LaterPageKeepsEnd(
      entries: seq<Wire>, start: int, limits: Limits, pageEnd: int, known: nat, seen: map<int, Event>, used: int,
      ends: map<int, int>, ends': map<int, int>, end: int, id: int)
    requires ends' == WithEnds(seen, ends, pageEnd) && ends.Keys <= seen.Keys && pageEnd < end
    ensures KeepsEnd(AfterPage(entries, start, limits, pageEnd, known, seen, used, ends'), end, id,
                     EndsAt(ends, id, end))
  {
    assert ends'.Keys == seen.Keys;
  }

  // ----- a server that trims -----

  function Example(id: int, at: int, duration: int): Event {
    Event(id, Stamp("", at), "{}", duration)
  }

  const MIDDLE := Example(2, 50, 1)
  const LATE := Example(3, 60, 1)

  /** The newest two of three events, cut at the requested end; the first of them runs for `duration` from 10 on. */
  function ExampleEntries(duration: nat, pageEnd: int): seq<Wire> {
    var long := Example(1, 10, duration);
    if pageEnd >= 60 then [Wire(Shown(LATE, pageEnd, true)), Wire(Shown(MIDDLE, pageEnd, true))]
    else if pageEnd >= 50 then [Wire(Shown(MIDDLE, pageEnd, true)), Wire(Shown(long, pageEnd, true))]
    else if pageEnd >= 10 then [Wire(Shown(long, pageEnd, true))]
    else []
  }

  function ExampleServer(duration: nat): Server {
    (k: nat, pageEnd: int) => Page(ExampleEntries(duration, pageEnd))
  }

  function ExampleBucket(duration: nat): set<Event> {
    {Example(1, 10, duration), MIDDLE, LATE}
  }

  lemma ExampleIsFaithful(duration: nat)
    ensures DistinctIds(ExampleBucket(duration))
            && Faithful(ExampleServer(duration), ExampleBucket(duration), 0, 2, true)
  {
    forall k: nat, pageEnd: int
      ensures FaithfulAnswer(ExampleBucket(duration), 0, pageEnd, 2, true, ExampleServer(duration)(k, pageEnd))
    {
    }
  }

  const EXAMPLE_LIMITS := Limits(2, 10, 100, 10_000)

  /** A full page of two entries that goes back in time leads to another request. */
  lemma FullExamplePage(
      pageEnd: int, a: Event, b: Event, seen: map<int, Event>, used: int, ends: map<int, int>, taken: Reading)
    requires 0 <= b.At() <= a.At() <= pageEnd && b.At() < pageEnd
    requires taken == Take(Take(Holding(seen, used), Wire(a), 0, 100, EXAMPLE_LIMITS), Wire(b), 0, 100, EXAMPLE_LIMITS)
    requires taken.Holding? && |taken.seen| != |seen|
    ensures Ask(Page([Wire(a), Wire(b)]), 0, 100, EXAMPLE_LIMITS, pageEnd, seen, used, ends)
         == Next(b.At(), taken.seen, taken.used, WithEnds(taken.seen, ends, pageEnd))
  {
    var entries := [Wire(a), Wire(b)];
    assert Oldest(entries, 1, pageEnd) == a.At() || a.At() == pageEnd;
    assert !ReachesStart(entries, 1, 0);
    assert TakeFirst(seen, used, entries, 1, 0, 100, EXAMPLE_LIMITS)
        == Take(Holding(seen, used), Wire(a), 0, 100, EXAMPLE_LIMITS);
  }

  const CUT := Example(1, 10, 40)
  const TWO := map[2 := MIDDLE, 3 := LATE]
  const THREE := map[1 := CUT, 2 := MIDDLE, 3 := LATE]
  const TWO_ENDS := map[2 := 100, 3 := 100]
  const THREE_ENDS := map[1 := 50, 2 := 100, 3 := 100]

  lemma FirstExampleRequest(duration: nat)
    ensures Ask(ExampleServer(duration)(0, 100), 0, 100, EXAMPLE_LIMITS, 100, map[], 0, map[])
              == Next(50, TWO, 516, TWO_ENDS)
  {
    assert Take(Holding(map[], 0), Wire(LATE), 0, 100, EXAMPLE_LIMITS) == Holding(map[3 := LATE], 258);
    assert WithEnds(TWO, map[], 100) == TWO_ENDS;
    FullExamplePage(100, LATE, MIDDLE, map[], 0, map[], Holding(TWO, 516));
  }

  lemma SecondExampleRequest(duration: nat)
    requires 40 <= duration
    ensures Ask(ExampleServer(duration)(1, 50), 0, 100, EXAMPLE_LIMITS, 50, TWO, 516, TWO_ENDS)
              == Next(10, THREE, 774, THREE_ENDS)
  {
    var middle := Shown(MIDDLE, 50, true);
    assert ExampleEntries(duration, 50) == [Wire(middle), Wire(CUT)];
    SecondExamplePage();
    FullExamplePage(50, middle, CUT, TWO, 516, TWO_ENDS, Holding(THREE, 774));
  }

  lemma {:induction false} SecondExamplePage()
    ensures Take(Take(Holding(TWO, 516), Wire(Shown(MIDDLE, 50, true)), 0, 100, EXAMPLE_LIMITS), Wire(CUT), 0, 100,
              EXAMPLE_LIMITS)
         == Holding(THREE, 774)
    ensures |THREE| != |TWO| && WithEnds(THREE, TWO_ENDS, 50) == THREE_ENDS
  {
    assert Take(Holding(TWO, 516), Wire(Shown(MIDDLE, 50, true)), 0, 100, EXAMPLE_LIMITS) == Holding(TWO, 516);
    assert TWO[1 := CUT] == THREE;
  }

  lemma LastExampleRequest(duration: nat)
    ensures Ask(ExampleServer(duration)(2, 10), 0, 100, EXAMPLE_LIMITS, 10, THREE, 774, THREE_ENDS)
         == Over(Finished(THREE, 774, THREE_ENDS))
  {
    var entries := [Wire(Shown(Example(1, 10, duration), 10, true))];
    assert TakeFirst(THREE, 774, entries, 1, 0, 100, EXAMPLE_LIMITS) == Holding(THREE, 774);
    EndsStay(THREE, THREE_ENDS, 10);
  }

  /** Asked for 0 to 100 in pages of two, the walk finishes with the long event as the second request cut it, to end
      at 50. */
  lemma ExampleWalk(duration: nat)
    requires 40 <= duration
    ensures WalkAll(ExampleServer(duration), 0, 100, EXAMPLE_LIMITS) == Finished(THREE, 774, THREE_ENDS)
  {
    FirstExampleRequest(duration);
    SecondExampleRequest(duration);
    LastExampleRequest(duration);
    var serve := ExampleServer(duration);
    assert WalkFrom(serve, 0, 100, EXAMPLE_LIMITS, 2, 10, THREE, 774, THREE_ENDS) == Finished(THREE, 774, THREE_ENDS);
    assert WalkFrom(serve, 0, 100, EXAMPLE_LIMITS, 1, 50, TWO, 516, TWO_ENDS) == Finished(THREE, 774, THREE_ENDS);
  }

  lemma ExampleConditions(duration: nat)
    requires 40 <= duration
    ensures OpenOnFirstPage(ExampleBucket(duration), 0, 100, THREE_ENDS) <==> duration < 90
    ensures duration < 90 ==> (NoneCut(ExampleBucket(duration), 0, 100, THREE_ENDS) <==> duration == 40)
  {
    var world, long := ExampleBucket(duration), Example(1, 10, duration);
    assert long in world;
    if duration >= 90 {
      assert FirstOpen(world, 0, 100, long);
    } else {
      assert InClosedPrefix(world, 0, 100, long);
    }
  }

  /**
   The fetch succeeds with the cut event. That is the closed prefix only if the event really lasts no longer: one that
   ends at 55 comes back short although nothing is open, and one that ends at 100 or later comes back although it is
   open.
   */
  lemma ExampleFetch(duration: nat, events: seq<Event>)
    requires 40 <= duration && IsStable(THREE, 100, events)
    ensures WalkAll(ExampleServer(duration), 0, 100, EXAMPLE_LIMITS) == Finished(THREE, 774, THREE_ENDS)
    ensures CUT in events
    ensures IsClosedPrefix(ExampleBucket(duration), 0, 100, events) <==> duration == 40
  {
    ExampleWalk(duration);
    ExampleIsFaithful(duration);
    ExampleConditions(duration);
    FetchReports(ExampleServer(duration), ExampleBucket(duration), 0, 100, true, EXAMPLE_LIMITS, events);
    TrimmingServerIsExactIff(ExampleBucket(duration), 0, 100, THREE_ENDS, events);
    CutStands();
  }

  lemma CutStands()
    ensures Stands(THREE, 100, CUT)
  {
  }
}
