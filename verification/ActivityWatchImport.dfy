/**
 The import of one bucket over many polls (internal/collectors/activitywatch.go, poll;
 internal/eventstore/activitywatch.go, the checkpoint). A poll may stop before any durable write.
 */
module ActivityWatchImport {
  import opened Options
  import opened RawEvents
  import opened ActivityWatchFetch
  import opened ActivityWatchRevisions
  import opened ActivityWatchServer

  /** The stored checkpoint row of the collector. */
  datatype Checkpoint = Checkpoint(bucket: string, time: int, id: int)

  datatype CheckpointError = CheckpointInvalid | BucketConflict

  datatype Settings = Settings(limits: Limits, lookback: int, rescan: int, lateness: int)

  /** The conditions an accepted configuration meets. */
  predicate ValidSettings(s: Settings, maxBatch: nat) {
    && 1 <= s.limits.pageSize <= maxBatch && 1 <= s.limits.maxPages && 0 <= s.limits.byteBudget
    && 0 < s.lookback && 0 < s.rescan && 0 <= s.lateness
  }

  datatype PollStatus = Done | Stopped | Failed

  /** The event is at or before the checkpoint in source order. */
  predicate AtOrBefore(e: Event, c: Checkpoint) {
    e.At() < c.time || (e.At() == c.time && e.id <= c.id)
  }

  /** `tupleAfter`: strictly after the checkpoint. */
  predicate TupleAfter(time: int, id: int, c: Checkpoint) {
    time > c.time || (time == c.time && id > c.id)
  }

  /** The checkpoint did not move back, and did not change buckets. */
  ghost predicate NotMovedBack(before: Option<Checkpoint>, after: Option<Checkpoint>) {
    before.Some? ==> after.Some? && after.value.bucket == before.value.bucket
                     && !TupleAfter(before.value.time, before.value.id, after.value)
  }

  ghost predicate Ascends(checkpoints: seq<Option<Checkpoint>>) {
    forall i, j :: 0 <= i < j < |checkpoints| ==> NotMovedBack(checkpoints[i], checkpoints[j])
  }

  lemma AscendsFurther(earlier: seq<Option<Checkpoint>>, last: Option<Checkpoint>, next: Option<Checkpoint>)
    requires Ascends(earlier + [last]) && NotMovedBack(last, next)
    ensures Ascends(earlier + [last] + [next])
  {
    var before, after := earlier + [last], earlier + [last] + [next];
    forall i | 0 <= i < |before|
      ensures NotMovedBack(after[i], next)
    {
      assert i < |earlier| ==> NotMovedBack(before[i], before[|earlier|]);
    }
  }

  /** The row is the first report of `e`: its duration may since have grown, the rest is the event's. */
  predicate IsBaseOf(row: EventRow, e: Event) {
    row.key == Base(e.id) && row.content.stamp == e.stamp && row.content.data == e.data
  }

  ghost predicate HasBase(rows: seq<EventRow>, e: Event) {
    exists i :: 0 <= i < |rows| && IsBaseOf(rows[i], e)
  }

  /** The event is stored, with just the duration it was reported with. */
  ghost predicate Kept(rows: seq<EventRow>, e: Event, source: string) {
    HasBase(rows, e) && TakenIn(rows, e.id, ContentOf(e, source))
  }

  /** The bucket as the source shows it later: what it adds lies at or after every earlier cutoff. */
  ghost predicate GrowsLater(world: set<Event>, world': set<Event>, horizon: int) {
    && DistinctIds(world')
    && forall e' :: e' in world' ==> e'.At() >= horizon || exists e :: e in world && SameIdentity(e, e')
  }

  /** One poll as its environment shapes it: the clock, the server, the database's faults, and how many durable
      writes happen before the process stops. */
  datatype PollInput = PollInput(now: int, serve: int -> Server, trims: bool, faults: nat -> Fault, writes: nat)

  ghost predicate FaithfulAlways(input: PollInput, world: set<Event>, limit: nat) {
    forall start: int :: Faithful(input.serve(start), world, start, limit, input.trims)
  }

  ghost predicate Calm(faults: nat -> Fault) {
    forall step: nat :: faults(step) == NoFault
  }

  ghost predicate StoredThrough(events: seq<Event>, n: nat, rows: seq<EventRow>, source: string)
    requires n <= |events|
  {
    forall k :: 0 <= k < n ==> Kept(rows, events[k], source)
  }

  ghost predicate DistinctEvents(events: seq<Event>) {
    forall i, j :: 0 <= i < j < |events| ==> events[i].id != events[j].id
  }

  ghost predicate Reportable(events: seq<Event>) {
    DistinctEvents(events) && forall e :: e in events ==> 0 <= e.duration
  }

  /** Everything of the bucket from `began` on that is at or before the checkpoint is in the table. */
  ghost predicate Covered(world: set<Event>, began: int, c: Checkpoint, rows: seq<EventRow>) {
    forall e :: e in world && began <= e.At() && AtOrBefore(e, c) ==> HasBase(rows, e)
  }

  /** Events of the bucket that lie before the poll's range and count, are already stored. */
  ghost predicate OlderStored(world: set<Event>, began: int, start: int, rows: seq<EventRow>) {
    forall e :: e in world && began <= e.At() < start ==> HasBase(rows, e)
  }

  ghost predicate FetchedFrom(
      world: set<Event>, start: int, cutoff: int, trims: bool, ends: map<int, int>, events: seq<Event>)
  {
    DistinctIds(world) && Reports(world, start, cutoff, trims, ends, events)
  }

  lemma StoredUpTo(
      world: set<Event>, start: int, cutoff: int, trims: bool, ends: map<int, int>, events: seq<Event>, n: nat,
      rows: seq<EventRow>, source: string, e: Event)
    requires FetchedFrom(world, start, cutoff, trims, ends, events)
    requires 0 < n <= |events| && StoredThrough(events, n, rows, source)
    requires e in world && start <= e.At() && !Before(events[n - 1], e)
    ensures HasBase(rows, e)
  {
    var w := ReportedAt(world, start, cutoff, trims, ends, events, n - 1);
    var k := PositionOf(world, start, cutoff, trims, ends, events, e);
    var i :| 0 <= i < |rows| && IsBaseOf(rows[i], events[k]);
    assert IsBaseOf(rows[i], e);
  }

  /** A fetched event shows a reported one. */
  lemma ReportedAt(
      world: set<Event>, start: int, cutoff: int, trims: bool, ends: map<int, int>, events: seq<Event>, i: nat)
    returns (w: Event)
    requires FetchedFrom(world, start, cutoff, trims, ends, events)
    requires i < |events|
    ensures Reported(world, start, cutoff, trims, ends, w) && SameIdentity(w, events[i])
    ensures w.id in ends && events[i] == Shown(w, ends[w.id], trims)
  {
    assert ReportedAs(world, start, cutoff, trims, ends, events[i]);
    w :| Reported(world, start, cutoff, trims, ends, w) && w.id in ends && events[i] == Shown(w, ends[w.id], trims);
  }

  /** A reported event is shown by a fetched one. */
  lemma PositionOf(
      world: set<Event>, start: int, cutoff: int, trims: bool, ends: map<int, int>, events: seq<Event>, e: Event)
    returns (k: nat)
    requires FetchedFrom(world, start, cutoff, trims, ends, events)
    requires Reported(world, start, cutoff, trims, ends, e)
    ensures k < |events| && SameIdentity(e, events[k])
  {
    var shown := Shown(e, ends[e.id], trims);
    assert ReportedAs(world, start, cutoff, trims, ends, shown);
    k :| 0 <= k < |events| && events[k] == shown;
  }

  lemma FetchedAreDistinct(
      world: set<Event>, start: int, cutoff: int, trims: bool, ends: map<int, int>, events: seq<Event>)
    requires FetchedFrom(world, start, cutoff, trims, ends, events)
    ensures DistinctEvents(events)
  {
    forall i, j | 0 <= i < j < |events|
      ensures events[i].id != events[j].id
    {
      var v := ReportedAt(world, start, cutoff, trims, ends, events, i);
      var w := ReportedAt(world, start, cutoff, trims, ends, events, j);
      assert Before(events[i], events[j]);
      assert v.id == w.id ==> SameId(v, w);
    }
  }

  /** Everything the poll should report is stored as it was shown, and the checkpoint is at or past all of it. */
  ghost predicate ReportedStored(
      world: set<Event>, start: int, cutoff: int, trims: bool, ends: map<int, int>, rows: seq<EventRow>,
      source: string, checkpoint: Option<Checkpoint>)
  {
    forall x :: ReportedAs(world, start, cutoff, trims, ends, x) ==>
      Kept(rows, x, source) && checkpoint.Some? && AtOrBefore(x, checkpoint.value)
  }

  /** Rows are only added, and each added one is a report of an event as this poll was to report it. */
  ghost predicate AddsReported(
      world: set<Event>, start: int, cutoff: int, trims: bool, ends: map<int, int>, before: seq<EventRow>,
      rows: seq<EventRow>, source: string)
  {
    before <= rows && forall i :: |before| <= i < |rows| ==>
      ReportsShown(rows[i], world, start, cutoff, trims, ends, source)
  }

  ghost predicate ReportsShown(
      row: EventRow, world: set<Event>, start: int, cutoff: int, trims: bool, ends: map<int, int>, source: string)
  {
    exists x :: ReportedAs(world, start, cutoff, trims, ends, x) && IsReport(row, x, source)
  }

  lemma FetchedAdds(
      before: seq<EventRow>, rows: seq<EventRow>, world: set<Event>, start: int, cutoff: int, trims: bool,
      ends: map<int, int>, events: seq<Event>, source: string)
    requires FetchedFrom(world, start, cutoff, trims, ends, events) && AddsOnly(before, rows, events, source)
    ensures AddsReported(world, start, cutoff, trims, ends, before, rows, source)
  {
    forall i | |before| <= i < |rows|
      ensures ReportsShown(rows[i], world, start, cutoff, trims, ends, source)
    {
      assert ReportsOne(rows[i], events, source);
      var e :| e in events && IsReport(rows[i], e, source);
    }
  }

  lemma AllReportedStored(
      world: set<Event>, start: int, cutoff: int, trims: bool, ends: map<int, int>, events: seq<Event>,
      rows: seq<EventRow>, source: string, checkpoint: Option<Checkpoint>)
    requires FetchedFrom(world, start, cutoff, trims, ends, events)
    requires StoredThrough(events, |events|, rows, source)
    requires |events| > 0 ==> checkpoint.Some? && AtOrBefore(events[|events| - 1], checkpoint.value)
    ensures ReportedStored(world, start, cutoff, trims, ends, rows, source, checkpoint)
  {
    forall x | ReportedAs(world, start, cutoff, trims, ends, x)
      ensures Kept(rows, x, source) && checkpoint.Some? && AtOrBefore(x, checkpoint.value)
    {
      var k :| 0 <= k < |events| && events[k] == x;
      assert k < |events| - 1 ==> Before(events[k], events[|events| - 1]);
    }
  }

  /** Rows are only added and the checkpoint does not move back: what a poll has stored stays stored. */
  lemma StoredStays(
      world: set<Event>, start: int, cutoff: int, trims: bool, ends: map<int, int>, source: string,
      rows: seq<EventRow>, more: seq<EventRow>, before: Option<Checkpoint>, after: Option<Checkpoint>)
    requires ReportedStored(world, start, cutoff, trims, ends, rows, source, before)
    requires rows <= more && NotMovedBack(before, after)
    ensures ReportedStored(world, start, cutoff, trims, ends, more, source, after)
  {
    forall x | ReportedAs(world, start, cutoff, trims, ends, x)
      ensures Kept(more, x, source)
    {
      KeptStays(rows, more, x, source);
    }
  }

  lemma StoredGrows(events: seq<Event>, n: nat, rows: seq<EventRow>, more: seq<EventRow>, source: string)
    requires n <= |events| && StoredThrough(events, n, rows, source) && rows <= more
    ensures StoredThrough(events, n, more, source)
  {
    forall k | 0 <= k < n
      ensures Kept(more, events[k], source)
    {
      KeptStays(rows, more, events[k], source);
    }
  }

  lemma KeptStays(rows: seq<EventRow>, more: seq<EventRow>, e: Event, source: string)
    requires Kept(rows, e, source) && rows <= more
    ensures Kept(more, e, source)
  {
    var i :| 0 <= i < |rows| && IsBaseOf(rows[i], e);
    var j :| 0 <= j < |rows| && InFamily(rows[j].key, e.id) && rows[j].content == ContentOf(e, source);
    assert more[i] == rows[i] && more[j] == rows[j];
  }

  /** The fetched events are a prefix of the range: moving the checkpoint to one of them leaves nothing behind. */
  lemma CheckpointCovers(
      world: set<Event>, began: int, start: int, cutoff: int, trims: bool, ends: map<int, int>, events: seq<Event>,
      n: nat, rows: seq<EventRow>, source: string, bucket: string)
    requires FetchedFrom(world, start, cutoff, trims, ends, events)
    requires 0 < n <= |events| && StoredThrough(events, n, rows, source)
    requires OlderStored(world, began, start, rows)
    ensures Covered(world, began, Checkpoint(bucket, events[n - 1].At(), events[n - 1].id), rows)
  {
    var last := events[n - 1];
    forall e | e in world && began <= e.At() && AtOrBefore(e, Checkpoint(bucket, last.At(), last.id))
      ensures HasBase(rows, e)
    {
      if e.At() >= start {
        StoredUpTo(world, start, cutoff, trims, ends, events, n, rows, source, e);
      }
    }
  }

  /** The row is a report of `e`: its first, or a revision to the duration it says. */
  predicate IsReport(row: EventRow, e: Event, source: string) {
    (row.key == Base(e.id) || row.key == Revision(e.id, e.duration)) && row.content == ContentOf(e, source)
  }

  ghost predicate ReportsOne(row: EventRow, events: seq<Event>, source: string) {
    exists e :: e in events && IsReport(row, e, source)
  }

  /** Rows are only added, and each added one is a report of one of the events. */
  ghost predicate AddsOnly(before: seq<EventRow>, rows: seq<EventRow>, events: seq<Event>, source: string) {
    before <= rows && forall i :: |before| <= i < |rows| ==> ReportsOne(rows[i], events, source)
  }

  lemma AddsFurther(a: seq<EventRow>, b: seq<EventRow>, c: seq<EventRow>, events: seq<Event>, source: string)
    requires AddsOnly(a, b, events, source) && AddsOnly(b, c, events, source)
    ensures AddsOnly(a, c, events, source)
  {
    forall i | |a| <= i < |c|
      ensures ReportsOne(c[i], events, source)
    {
      assert i < |b| ==> c[i] == b[i];
    }
  }

  lemma AddsForMore(before: seq<EventRow>, rows: seq<EventRow>, some: seq<Event>, events: seq<Event>, source: string)
    requires AddsOnly(before, rows, some, source) && forall e :: e in some ==> e in events
    ensures AddsOnly(before, rows, events, source)
  {
    forall i | |before| <= i < |rows|
      ensures ReportsOne(rows[i], events, source)
    {
      assert ReportsOne(rows[i], some, source);
      var e :| e in some && IsReport(rows[i], e, source);
    }
  }

  /** The families of all events but these are as before. */
  ghost predicate OutsideKept(events: seq<Event>, before: seq<EventRow>, rows: seq<EventRow>) {
    forall other {:trigger Family(rows, other)} ::
      other !in Ids(events) ==> Family(rows, other) == Family(before, other)
  }

  ghost function Ids(events: seq<Event>): set<int> {
    set e | e in events :: e.id
  }

  /** From the `n`-th on, the events' families are as before. */
  ghost predicate RestKept(events: seq<Event>, n: nat, before: seq<EventRow>, rows: seq<EventRow>) {
    forall k {:trigger events[k]} :: n <= k < |events| ==> Family(rows, events[k].id) == Family(before, events[k].id)
  }

  /** Resolving the `i`-th event leaves all but its own family. */
  lemma ResolvedKeeps(events: seq<Event>, i: nat, after: seq<EventRow>, soFar: seq<EventRow>, rows: seq<EventRow>)
    requires DistinctEvents(events) && i < |events| && OthersKept(events[i].id, soFar, rows)
    requires RestKept(events, i, after, soFar) && OutsideKept(events, after, soFar)
    ensures RestKept(events, i + 1, after, rows) && OutsideKept(events, after, rows)
  {
    assert events[i].id in Ids(events);
    forall k | i + 1 <= k < |events|
      ensures Family(rows, events[k].id) == Family(after, events[k].id)
    {
      assert events[i].id != events[k].id;
    }
  }

  /** A batch leaves the events after it alone. */
  lemma RestAfterBatch(
      events: seq<Event>, offset: nat, end: nat, before: seq<EventRow>, soFar: seq<EventRow>, rows: seq<EventRow>)
    requires DistinctEvents(events) && offset <= end <= |events|
    requires RestKept(events, offset, before, soFar) && OutsideKept(events[offset..end], soFar, rows)
    ensures RestKept(events, end, before, rows)
  {
    forall k | end <= k < |events|
      ensures Family(rows, events[k].id) == Family(before, events[k].id)
    {
      forall e | e in events[offset..end]
        ensures e.id != events[k].id
      {
        var j :| 0 <= j < end - offset && events[offset..end][j] == e;
        assert e == events[offset + j];
      }
    }
  }

  lemma OutsideComposes(events: seq<Event>, before: seq<EventRow>, after: seq<EventRow>, rows: seq<EventRow>)
    requires OutsideKept(events, before, after) && OutsideKept(events, after, rows)
    ensures OutsideKept(events, before, rows)
  {
    forall other | other !in Ids(events)
      ensures Family(rows, other) == Family(before, other)
    {
      assert Family(after, other) == Family(before, other);
    }
  }

  class Importer {
    const store: Store<Key, Content>
    const bucket: string
    const settings: Settings
    /** Which candidates pass validation; the others are rejected by the store. */
    const accepts: Event -> bool

    var checkpoint: Option<Checkpoint>

    /** The start of the poll that first saved a checkpoint, and a bound above every past cutoff. */
    ghost var firstStart: int
    ghost var horizon: int

    ghost predicate Inv(world: set<Event>)
      reads this, store
    {
      && ValidSettings(settings, store.maxBatchEvents)
      && UniqueKeys(store.rows) && AllWellFormed(store.rows)
      && DistinctIds(world)
      && (checkpoint.Some? ==>
          checkpoint.value.time < horizon && Covered(world, firstStart, checkpoint.value, store.rows))
    }

    constructor (bucket: string, settings: Settings, accepts: Event -> bool, maxBatch: nat, ghost world: set<Event>)
      requires ValidSettings(settings, maxBatch) && DistinctIds(world)
      ensures Inv(world) && fresh(store) && this.settings == settings && checkpoint == None && store.rows == []
    {
      store := new Store(maxBatch);
      this.bucket, this.settings, this.accepts := bucket, settings, accepts;
      checkpoint := None;
      firstStart, horizon := 0, 0;
      new;
      assert forall id :: Family([], id) == [];
    }

    predicate OtherBucket(c: Checkpoint)
      reads this
    {
      checkpoint.Some? && checkpoint.value.bucket != c.bucket
    }

    /** `SaveActivityWatchCheckpoint`: the row changes only to a later position in the same bucket. */
    method SaveCheckpoint(c: Checkpoint) returns (error: Option<CheckpointError>)
      modifies this`checkpoint
      ensures NotMovedBack(old(checkpoint), checkpoint)
      ensures error.Some? ==> checkpoint == old(checkpoint)
      ensures error == None ==>
                checkpoint
                == if old(checkpoint).Some? && !TupleAfter(c.time, c.id, old(checkpoint).value) then old(checkpoint)
                   else Some(c)
      ensures error == if c.id < 0 then Some(CheckpointInvalid)
                       else if old(OtherBucket(c)) then Some(BucketConflict)
                       else None
    {
      if c.id < 0 {
        return Some(CheckpointInvalid);
      }
      if checkpoint == None {
        checkpoint := Some(c);
        return None;
      }
      var existing := checkpoint.value;
      if existing.bucket == c.bucket && (existing.time < c.time || (existing.time == c.time && existing.id < c.id)) {
        checkpoint := Some(c);
        return None;
      }
      if existing.bucket != c.bucket {
        return Some(BucketConflict);
      }
      return None;
    }

    function Candidate(e: Event, source: string): Prepared<Key, Content> {
      if accepts(e) then Ready(Base(e.id), ContentOf(e, source)) else Invalid("EVENT_REJECTED")
    }

    method Candidates(events: seq<Event>, source: string) returns (items: seq<Prepared<Key, Content>>)
      requires forall e :: e in events ==> 0 <= e.duration
      ensures |items| == |events|
      ensures forall k :: 0 <= k < |items| ==> items[k] == Candidate(events[k], source) && IsBase(items[k])
    {
      items := [];
      for k := 0 to |events|
        invariant |items| == k
        invariant forall j :: 0 <= j < k ==> items[j] == Candidate(events[j], source) && IsBase(items[j])
      {
        assert events[k] in events;
        items := items + [Candidate(events[k], source)];
      }
    }

    /** The event passes validation, and its family can take the report. */
    ghost predicate CanTake(rows: seq<EventRow>, e: Event, source: string) {
      accepts(e) && Absorbed(rows, e.id, ContentOf(e, source))
    }

    ghost predicate CanTakeFirst(rows: seq<EventRow>, events: seq<Event>, n: nat, source: string)
      requires n <= |events|
    {
      forall k :: 0 <= k < n ==> CanTake(rows, events[k], source)
    }

    /**
     `appendActivityWatchDurationRevision`: the base row exists and says something else. The report is taken in
     exactly when `Absorbed` says so, and then a row says it; no branch for a malformed family is ever taken.
     */
    method AppendDurationRevision(event: Event, source: string, existingId: nat, now: int, fault: Fault)
      returns (ok: bool)
      requires UniqueKeys(store.rows) && AllWellFormed(store.rows)
      requires 1 <= store.maxBatchEvents
      requires 0 <= event.duration
      requires 1 <= existingId <= |store.rows|
      requires store.rows[existingId - 1].key == Base(event.id)
      requires store.rows[existingId - 1].content != ContentOf(event, source)
      modifies store
      ensures UniqueKeys(store.rows) && AllWellFormed(store.rows) && old(store.rows) <= store.rows
      ensures ok ==> SameButDuration(ContentOf(event, source), store.rows[existingId - 1].content)
      ensures ok ==> TakenIn(store.rows, event.id, ContentOf(event, source))
      ensures OthersKept(event.id, old(store.rows), store.rows)
      ensures AddsOnly(old(store.rows), store.rows, [event], source)
      ensures fault == NoFault ==> (ok <==> CanTake(old(store.rows), event, source))
      ensures !ok ==> store.rows == old(store.rows)
    {
      var family := Family(store.rows, event.id);
      LookupStable(store.rows, existingId - 1);
      BaseIsHead(store.rows, event.id);
      assert WellFormed(family, event.id);
      if |family| > FAMILY_LIMIT {
        return false;
      }
      var decision := DecideRevision(event, source, family, existingId);
      if decision.Refuse? {
        return false;
      }
      ok := AppendRevision(event, source, decision, now, fault);
    }

    /** The batch of one revision, whose duration its family can take. */
    method AppendRevision(event: Event, source: string, revision: Decision, now: int, fault: Fault) returns (ok: bool)
      requires revision == Decision.Append(Revision(event.id, event.duration), ContentOf(event, source))
      requires UniqueKeys(store.rows) && AllWellFormed(store.rows) && 1 <= store.maxBatchEvents
      requires Extends(Family(store.rows, event.id), ContentOf(event, source))
      modifies store
      ensures UniqueKeys(store.rows) && AllWellFormed(store.rows) && old(store.rows) <= store.rows
      ensures ok ==> TakenIn(store.rows, event.id, ContentOf(event, source))
      ensures OthersKept(event.id, old(store.rows), store.rows)
      ensures AddsOnly(old(store.rows), store.rows, [event], source)
      ensures fault == NoFault ==> (ok <==> accepts(event))
      ensures !ok ==> store.rows == old(store.rows)
    {
      var item: Prepared<Key, Content> :=
        if accepts(event) then Ready(revision.key, revision.content) else Invalid("EVENT_REJECTED");
      ghost var before := store.rows;
      RevisionTakenIn(before, event.id, revision.content, now);
      LastOutcome(before, [item], now);
      assert [item][..0] == [];
      var appended := store.AppendBatch([item], now, fault);
      if appended.Failed? {
        return false;
      }
      assert event in [event] && (|store.rows| > |before| ==> IsReport(store.rows[|before|], event, source));
      var outcome := appended.results[0].outcome;
      return outcome.Accepted? || outcome.Duplicate?;
    }

    /**
     One appended batch: every event of the batch is stored with its duration, or the poll ends here. Conflicts go
     through the duration revisions. Without faults it completes exactly when all its events can be taken in.
     */
    method ImportBatch(events: seq<Event>, source: string, now: int, faults: nat -> Fault, step: nat, writes: nat)
      returns (status: PollStatus, step': nat, writes': nat)
      requires UniqueKeys(store.rows) && AllWellFormed(store.rows)
      requires 0 < |events| <= store.maxBatchEvents
      requires Reportable(events)
      modifies store
      ensures UniqueKeys(store.rows) && AllWellFormed(store.rows) && old(store.rows) <= store.rows
      ensures status == Done ==> StoredThrough(events, |events|, store.rows, source)
      ensures OutsideKept(events, old(store.rows), store.rows)
      ensures AddsOnly(old(store.rows), store.rows, events, source)
      ensures Calm(faults) && status != PollStatus.Stopped ==>
                (status == Done <==> CanTakeFirst(old(store.rows), events, |events|, source))
      ensures status == PollStatus.Stopped ==> writes < 1 + |events|
      ensures status == Done ==> writes' + 1 + |events| >= writes
    {
      step', writes' := step, writes;
      if writes' == 0 {
        return PollStatus.Stopped, step', writes';
      }
      writes' := writes' - 1;
      var appended := AppendEvents(events, source, now, faults(step'));
      step' := step' + 1;
      if appended.Failed? {
        return PollStatus.Failed, step', writes';
      }
      ghost var before, after, n := old(store.rows), store.rows, 0;
      status, step', writes', n := ResolveAll(events, source, appended.results, now, faults, step', writes', before);
      OutsideComposes(events, before, after, store.rows);
      AddsFurther(before, after, store.rows, events, source);
      if !CanTakeFirst(before, events, n, source) {
        NotAll(before, events, n, source);
      }
    }

    /** The answers of the append in turn; `before` are the rows before it, and `n` of the events were looked at. */
    method ResolveAll(
        events: seq<Event>, source: string, results: seq<WriteResult>, now: int, faults: nat -> Fault, step: nat,
        writes: nat, ghost before: seq<EventRow>)
      returns (status: PollStatus, step': nat, writes': nat, ghost n: nat)
      requires UniqueKeys(store.rows) && AllWellFormed(store.rows) && 1 <= store.maxBatchEvents
      requires Reportable(events)
      requires |results| == |events| && AllDescribed(store.rows, events, source, results)
      requires AllJudged(before, store.rows, events, source, results)
      modifies store
      ensures UniqueKeys(store.rows) && AllWellFormed(store.rows) && old(store.rows) <= store.rows
      ensures n <= |events| && (status == Done ==> n == |events|)
      ensures status == Done ==> StoredThrough(events, |events|, store.rows, source)
      ensures OutsideKept(events, old(store.rows), store.rows)
      ensures AddsOnly(old(store.rows), store.rows, events, source)
      ensures Calm(faults) && status != PollStatus.Stopped ==>
                (status == Done <==> CanTakeFirst(before, events, n, source))
      ensures status == PollStatus.Stopped ==> writes < |events|
      ensures status == Done ==> writes' + |events| >= writes
    {
      ghost var after := store.rows;
      NothingResolved(events, after, source);
      step', writes' := step, writes;
      for i := 0 to |events|
        invariant UniqueKeys(store.rows) && AllWellFormed(store.rows) && after <= store.rows
        invariant StoredThrough(events, i, store.rows, source)
        invariant RestKept(events, i, after, store.rows) && OutsideKept(events, after, store.rows)
        invariant Calm(faults) ==> CanTakeFirst(before, events, i, source)
        invariant writes' + i >= writes
        invariant AddsOnly(after, store.rows, events, source)
      {
        ghost var soFar := store.rows;
        status, step', writes' := ResolveNext(events, i, source, results, now, faults, step', writes', before, after);
        AddsFurther(after, soFar, store.rows, events, source);
        if status != Done {
          n := i + 1;
          return;
        }
      }
      status, n := Done, |events|;
    }

    lemma NothingResolved(events: seq<Event>, rows: seq<EventRow>, source: string)
      ensures StoredThrough(events, 0, rows, source) && RestKept(events, 0, rows, rows)
      ensures OutsideKept(events, rows, rows) && AddsOnly(rows, rows, events, source)
      ensures CanTakeFirst(rows, events, 0, source)
    {
    }

    /** The answer to the `i`-th event; `before` and `after` are the rows around the append. */
    method ResolveNext(
        events: seq<Event>, i: nat, source: string, results: seq<WriteResult>, now: int, faults: nat -> Fault,
        step: nat, writes: nat, ghost before: seq<EventRow>, ghost after: seq<EventRow>)
      returns (status: PollStatus, step': nat, writes': nat)
      requires UniqueKeys(store.rows) && AllWellFormed(store.rows) && 1 <= store.maxBatchEvents
      requires i < |events| == |results| && Reportable(events) && after <= store.rows
      requires AllDescribed(after, events, source, results) && AllJudged(before, after, events, source, results)
      requires StoredThrough(events, i, store.rows, source)
      requires RestKept(events, i, after, store.rows) && OutsideKept(events, after, store.rows)
      modifies store
      ensures UniqueKeys(store.rows) && AllWellFormed(store.rows) && old(store.rows) <= store.rows
      ensures status == Done ==> StoredThrough(events, i + 1, store.rows, source)
      ensures RestKept(events, i + 1, after, store.rows) && OutsideKept(events, after, store.rows)
      ensures AddsOnly(old(store.rows), store.rows, events, source)
      ensures Calm(faults) && status != PollStatus.Stopped && CanTakeFirst(before, events, i, source) ==>
                (status == Done <==> CanTakeFirst(before, events, i + 1, source))
      ensures status == PollStatus.Stopped ==> writes == 0
      ensures writes' + 1 >= writes
    {
      ghost var soFar := store.rows;
      var outcome := results[i].outcome;
      assert events[i] in events;
      assert Describes(after, Candidate(events[i], source), outcome);
      assert Judged(before, after, events[i], source, outcome);
      status, step', writes' := ResolveOutcome(events[i], source, outcome, now, faults, step, writes);
      ResolvedKeeps(events, i, after, soFar, store.rows);
      StoredGrows(events, i, soFar, store.rows, source);
      OneMoreTaken(before, events, i, source);
      AddsForMore(soFar, store.rows, [events[i]], events, source);
    }

    lemma OneMoreTaken(rows: seq<EventRow>, events: seq<Event>, i: nat, source: string)
      requires i < |events|
      ensures CanTakeFirst(rows, events, i + 1, source) <==>
                CanTakeFirst(rows, events, i, source) && CanTake(rows, events[i], source)
    {
    }

    /** The first reports of a batch, and what became of each. */
    method AppendEvents(events: seq<Event>, source: string, now: int, fault: Fault) returns (r: BatchResult)
      requires UniqueKeys(store.rows) && AllWellFormed(store.rows)
      requires 0 < |events| <= store.maxBatchEvents
      requires Reportable(events)
      modifies store
      ensures UniqueKeys(store.rows) && AllWellFormed(store.rows) && old(store.rows) <= store.rows
      ensures r.Results? ==> |r.results| == |events| && AllDescribed(store.rows, events, source, r.results)
      ensures r.Results? ==> AllJudged(old(store.rows), store.rows, events, source, r.results)
      ensures OutsideKept(events, old(store.rows), store.rows)
      ensures AddsOnly(old(store.rows), store.rows, events, source)
      ensures fault == NoFault ==> r.Results?
    {
      var items := Candidates(events, source);
      ghost var before := store.rows;
      BaseBatchKeepsWellFormed(before, items, now);
      r := store.AppendBatch(items, now, fault);
      if r.Results? {
        forall k | 0 <= k < |events|
          ensures Describes(store.rows, Candidate(events[k], source), r.results[k].outcome)
        {
          OutcomesDescribe(before, items, now, k);
        }
        forall k | 0 <= k < |events|
          ensures Judged(before, store.rows, events[k], source, r.results[k].outcome)
        {
          JudgedOne(before, events, items, source, now, k);
        }
        BatchAdds(before, events, items, source, now);
        forall other | other !in Ids(events)
          ensures Family(store.rows, other) == Family(before, other)
        {
          BatchFamily(before, items, now, other);
        }
      }
    }

    /** What the answer tells about the table as it was: only a conflict leaves open whether the family can take it. */
    ghost predicate Judged(before: seq<EventRow>, rows: seq<EventRow>, e: Event, source: string, outcome: Outcome) {
      accepts(e) ==>
        if outcome.Conflict? then Family(rows, e.id) == Family(before, e.id) else CanTake(before, e, source)
    }

    ghost predicate AllJudged(
        before: seq<EventRow>, rows: seq<EventRow>, events: seq<Event>, source: string, results: seq<WriteResult>)
      requires |results| == |events|
    {
      forall k :: 0 <= k < |events| ==> Judged(before, rows, events[k], source, results[k].outcome)
    }

    lemma BatchAdds(
        before: seq<EventRow>, events: seq<Event>, items: seq<Prepared<Key, Content>>, source: string, now: int)
      requires |items| == |events| && forall j :: 0 <= j < |items| ==> items[j] == Candidate(events[j], source)
      ensures AddsOnly(before, AppendAll(before, items, now).rows, events, source)
    {
      var rows := AppendAll(before, items, now).rows;
      forall i | |before| <= i < |rows|
        ensures ReportsOne(rows[i], events, source)
      {
        AppendAddsItems(before, items, now, i);
        var k :| 0 <= k < |items| && items[k] == Ready(rows[i].key, rows[i].content);
        assert events[k] in events && IsReport(rows[i], events[k], source);
      }
    }

    lemma JudgedOne(
        before: seq<EventRow>, events: seq<Event>, items: seq<Prepared<Key, Content>>, source: string, now: int,
        k: nat)
      requires UniqueKeys(before) && AllWellFormed(before) && DistinctEvents(events)
      requires |items| == |events| && forall j :: 0 <= j < |items| ==>
                 items[j] == Candidate(events[j], source) && IsBase(items[j])
      requires k < |events|
      ensures var all := AppendAll(before, items, now);
              Judged(before, all.rows, events[k], source, all.outcomes[k])
    {
      if accepts(events[k]) {
        OutcomeOfNewKey(before, items, now, k);
        BaseIsHead(before, events[k].id);
        if Lookup(before, Base(events[k].id)).Some? {
          BatchFamily(before, items, now, events[k].id);
        }
      }
    }

    ghost predicate AllDescribed(rows: seq<EventRow>, events: seq<Event>, source: string, results: seq<WriteResult>)
      requires |results| == |events|
    {
      forall k :: 0 <= k < |events| ==> Describes(rows, Candidate(events[k], source), results[k].outcome)
    }

    /** What one result asks for: a conflict goes through the duration revisions, a rejection ends the poll. */
    method ResolveOutcome(
        event: Event, source: string, outcome: Outcome, now: int, faults: nat -> Fault, step: nat, writes: nat)
      returns (status: PollStatus, step': nat, writes': nat)
      requires UniqueKeys(store.rows) && AllWellFormed(store.rows) && 1 <= store.maxBatchEvents && 0 <= event.duration
      requires Describes(store.rows, Candidate(event, source), outcome)
      modifies store
      ensures UniqueKeys(store.rows) && AllWellFormed(store.rows) && old(store.rows) <= store.rows
      ensures status == Done ==> Kept(store.rows, event, source)
      ensures OthersKept(event.id, old(store.rows), store.rows)
      ensures AddsOnly(old(store.rows), store.rows, [event], source)
      ensures Calm(faults) && status != PollStatus.Stopped ==>
                (status == Done <==> accepts(event) && (outcome.Conflict? ==> CanTake(old(store.rows), event, source)))
      ensures status == PollStatus.Stopped ==> writes == 0
      ensures writes' + 1 >= writes
    {
      status, step', writes' := Done, step, writes;
      match outcome
      case Rejected(_) =>
        status := PollStatus.Failed;
      case Accepted(id) =>
        assert IsBaseOf(store.rows[id - 1], event);
      case Duplicate(id) =>
        assert IsBaseOf(store.rows[id - 1], event);
      case Conflict(id) =>
        if writes == 0 {
          return PollStatus.Stopped, step, writes;
        }
        ghost var base := store.rows[id - 1];
        var ok := AppendDurationRevision(event, source, id, now, faults(step));
        step', writes' := step + 1, writes - 1;
        assert store.rows[id - 1] == base;
        if !ok {
          status := PollStatus.Failed;
        } else {
          assert IsBaseOf(base, event);
        }
    }

    /**
     One poll, cut short after any number of durable writes. Whatever happens, everything of the bucket between the
     first poll's start and the checkpoint is stored, and the checkpoint has not moved back. Without faults, and unless
     it is cut, it completes exactly when `Completes` says so; enough writes do not cut it.
     */
    method Poll(input: PollInput, source: string, ghost world: set<Event>) returns (status: PollStatus)
      requires Inv(world) && FaithfulAlways(input, world, settings.limits.pageSize)
      modifies this, store
      ensures Inv(world)
      ensures NotMovedBack(old(checkpoint), checkpoint) && old(store.rows) <= store.rows
      ensures AddsIts(input, world, StartOf(old(checkpoint), input.now), old(store.rows), store.rows, source)
      ensures firstStart ==
                if old(checkpoint) == None && checkpoint.Some? then input.now - settings.lookback else old(firstStart)
      ensures horizon == if input.now - settings.lateness > old(horizon) then input.now - settings.lateness
                else old(horizon)
      ensures status == Done ==>
                Complete(input, world, StartOf(old(checkpoint), input.now), source, store.rows, checkpoint)
      ensures Calm(input.faults) && status != PollStatus.Stopped ==>
                (status == Done <==> Completes(input, world, source, old(store.rows), old(checkpoint)))
      ensures input.writes >= 3 * settings.limits.eventLimit ==> status != PollStatus.Stopped
    {
      var cutoff := input.now - settings.lateness;
      var start := StartOf(checkpoint, input.now);
      if checkpoint.Some? && checkpoint.value.bucket != bucket {
        Witness(cutoff, world);
        AddsNothing(input, world, start, store.rows, source);
        return PollStatus.Failed;
      }
      if start >= cutoff {
        Witness(cutoff, world);
        AddsNothing(input, world, start, store.rows, source);
        return Done;
      }
      status := FetchAndImport(input, source, start, cutoff, world);
    }

    /** For every id, the end of the request of this poll that would show it first. */
    function EndsOf(input: PollInput, start: int): map<int, int> {
      PageEnds(input.serve(start), start, input.now - settings.lateness, settings.limits)
    }

    /** Everything a poll from `start` should report is stored as shown, and the checkpoint is at or past all of it. */
    ghost predicate Complete(
        input: PollInput, world: set<Event>, start: int, source: string, rows: seq<EventRow>,
        reached: Option<Checkpoint>)
    {
      var cutoff := input.now - settings.lateness;
      start < cutoff ==>
        ReportedStored(world, start, cutoff, input.trims, EndsOf(input, start), rows, source, reached)
    }

    /** A poll from `start` adds reports of what it was to report, and nothing when there is nothing to fetch. */
    ghost predicate AddsIts(
        input: PollInput, world: set<Event>, start: int, before: seq<EventRow>, rows: seq<EventRow>, source: string)
    {
      var cutoff := input.now - settings.lateness;
      if start < cutoff then AddsReported(world, start, cutoff, input.trims, EndsOf(input, start), before, rows, source)
      else rows == before
    }

    lemma AddsNothing(input: PollInput, world: set<Event>, start: int, rows: seq<EventRow>, source: string)
      ensures AddsIts(input, world, start, rows, rows, source)
    {
    }

    /** The walk over the pages finishes, and everything it will report can be taken in. */
    ghost predicate CanImport(
        input: PollInput, world: set<Event>, start: int, cutoff: int, source: string, rows: seq<EventRow>)
    {
      && WalkAll(input.serve(start), start, cutoff, settings.limits).Finished?
      && CanTakeReported(rows, world, start, cutoff, input.trims, EndsOf(input, start), source)
    }

    ghost predicate CanTakeReported(
        rows: seq<EventRow>, world: set<Event>, start: int, cutoff: int, trims: bool, ends: map<int, int>,
        source: string)
    {
      forall x :: ReportedAs(world, start, cutoff, trims, ends, x) ==> CanTake(rows, x, source)
    }

    /** The checkpoint is of this bucket, and there is nothing to fetch or all of it can be imported. */
    ghost predicate Completes(
        input: PollInput, world: set<Event>, source: string, rows: seq<EventRow>, before: Option<Checkpoint>)
    {
      var start, cutoff := StartOf(before, input.now), input.now - settings.lateness;
      && (before.Some? ==> before.value.bucket == bucket)
      && (start < cutoff ==> CanImport(input, world, start, cutoff, source, rows))
    }

    /** The horizon rises to every cutoff that was used. */
    ghost method Witness(cutoff: int, world: set<Event>)
      requires Inv(world)
      modifies this`horizon
      ensures Inv(world) && horizon == if cutoff > old(horizon) then cutoff else old(horizon)
    {
      horizon := if cutoff > horizon then cutoff else horizon;
    }

    /** The fetch of `[start, cutoff]` and its batches. */
    method FetchAndImport(input: PollInput, source: string, start: int, cutoff: int, ghost world: set<Event>)
      returns (status: PollStatus)
      requires Inv(world) && Faithful(input.serve(start), world, start, settings.limits.pageSize, input.trims)
      requires start < cutoff == input.now - settings.lateness
      requires checkpoint.Some? ==> checkpoint.value.bucket == bucket && start <= checkpoint.value.time
      modifies this, store
      ensures Inv(world)
      ensures NotMovedBack(old(checkpoint), checkpoint) && old(store.rows) <= store.rows
      ensures AddsIts(input, world, start, old(store.rows), store.rows, source)
      ensures firstStart == if old(checkpoint) == None && checkpoint.Some? then start else old(firstStart)
      ensures horizon == if cutoff > old(horizon) then cutoff else old(horizon)
      ensures status == Done ==> Complete(input, world, start, source, store.rows, checkpoint)
      ensures Calm(input.faults) && status != PollStatus.Stopped ==>
                (status == Done <==> CanImport(input, world, start, cutoff, source, old(store.rows)))
      ensures input.writes >= 3 * settings.limits.eventLimit ==> status != PollStatus.Stopped
    {
      Witness(cutoff, world);
      ghost var ends := EndsOf(input, start);
      var fetched := FetchRange(input.serve(start), start, cutoff, input.trims, world, ends);
      if fetched.FetchFailed? {
        AddsNothing(input, world, start, store.rows, source);
        return PollStatus.Failed;
      }
      ghost var before, began := store.rows, BeganAt(start);
      BeforeFirstBatch(world, start, cutoff, input.trims, ends, fetched.events, source);
      status := ImportBatches(input, source, fetched.events, world, began, start, cutoff, ends);
      FetchedAdds(before, store.rows, world, start, cutoff, input.trims, ends, fetched.events, source);
      TakesReported(before, world, start, cutoff, input.trims, ends, fetched.events, source);
    }

    lemma BeforeFirstBatch(
        world: set<Event>, start: int, cutoff: int, trims: bool, ends: map<int, int>, events: seq<Event>,
        source: string)
      requires Inv(world) && cutoff <= horizon
      requires checkpoint.Some? ==> checkpoint.value.bucket == bucket && start <= checkpoint.value.time
      requires FetchedFrom(world, start, cutoff, trims, ends, events) && DistinctEvents(events)
      requires forall e :: e in events ==> Sane(e, start, cutoff) && !Open(e, cutoff)
      ensures Between(world, BeganAt(start), start, cutoff, trims, ends, events, 0, source)
    {
    }

    /** The fetched events are those that will be reported. */
    lemma TakesReported(
        rows: seq<EventRow>, world: set<Event>, start: int, cutoff: int, trims: bool, ends: map<int, int>,
        events: seq<Event>, source: string)
      requires FetchedFrom(world, start, cutoff, trims, ends, events)
      ensures CanTakeFirst(rows, events, |events|, source) <==>
                CanTakeReported(rows, world, start, cutoff, trims, ends, source)
    {
      if CanTakeFirst(rows, events, |events|, source) {
        forall x | ReportedAs(world, start, cutoff, trims, ends, x)
          ensures CanTake(rows, x, source)
        {
          var k :| 0 <= k < |events| && events[k] == x;
        }
      } else {
        var k :| 0 <= k < |events| && !CanTake(rows, events[k], source);
        assert ReportedAs(world, start, cutoff, trims, ends, events[k]);
      }
    }

    /** The start of the poll that first saved a checkpoint, which may be this one. */
    ghost function BeganAt(start: int): int
      reads this
    {
      if checkpoint == None then start else firstStart
    }

    /** One fetch against a faithful server. */
    method FetchRange(
        serve: Server, start: int, cutoff: int, ghost trims: bool, ghost world: set<Event>, ghost ends: map<int, int>)
      returns (fetched: FetchResult)
      requires ValidSettings(settings, store.maxBatchEvents) && DistinctIds(world)
      requires Faithful(serve, world, start, settings.limits.pageSize, trims)
      requires ends == PageEnds(serve, start, cutoff, settings.limits)
      ensures fetched.Fetched? <==> WalkAll(serve, start, cutoff, settings.limits).Finished?
      ensures fetched.Fetched? ==>
                && |fetched.events| <= settings.limits.eventLimit && DistinctEvents(fetched.events)
                && FetchedFrom(world, start, cutoff, trims, ends, fetched.events)
                && forall e :: e in fetched.events ==> Sane(e, start, cutoff) && !Open(e, cutoff)
    {
      fetched := FetchEvents(serve, start, cutoff, settings.limits);
      if fetched.Fetched? {
        FetchReports(serve, world, start, cutoff, trims, settings.limits, fetched.events);
        FetchIsWithinBudgets(serve, start, cutoff, settings.limits, fetched.events);
        FetchedAreDistinct(world, start, cutoff, trims, ends, fetched.events);
      }
    }

    /** Where a poll starts: before the checkpoint by the rescan, or the lookback ago. */
    function StartOf(before: Option<Checkpoint>, now: int): int {
      if before.Some? then before.value.time - settings.rescan else now - settings.lookback
    }

    /** What holds between two batches of a poll, after `n` of its events. */
    ghost predicate Between(
        world: set<Event>, began: int, start: int, cutoff: int, trims: bool, ends: map<int, int>, events: seq<Event>,
        n: nat, source: string)
      requires n <= |events|
      reads this, store
    {
      && Inv(world) && cutoff <= horizon
      && (checkpoint.Some? ==> checkpoint.value.bucket == bucket && began == firstStart)
      && FetchedFrom(world, start, cutoff, trims, ends, events) && DistinctEvents(events)
      && (forall e :: e in events ==> Sane(e, start, cutoff) && !Open(e, cutoff))
      && OlderStored(world, began, start, store.rows)
      && StoredThrough(events, n, store.rows, source)
    }

    /** The batches of one poll, and what it means to get to the end of them. */
    method ImportBatches(
        input: PollInput, source: string, events: seq<Event>, ghost world: set<Event>, ghost began: int,
        ghost start: int, ghost cutoff: int, ghost ends: map<int, int>)
      returns (status: PollStatus)
      requires Between(world, began, start, cutoff, input.trims, ends, events, 0, source)
      modifies this, store
      ensures Inv(world)
      ensures NotMovedBack(old(checkpoint), checkpoint) && old(store.rows) <= store.rows
      ensures AddsOnly(old(store.rows), store.rows, events, source)
      ensures firstStart == if old(checkpoint) == None && checkpoint.Some? then began else old(firstStart)
      ensures horizon == old(horizon)
      ensures status == Done ==> ReportedStored(world, start, cutoff, input.trims, ends, store.rows, source, checkpoint)
      ensures Calm(input.faults) && status != PollStatus.Stopped ==>
                (status == Done <==> CanTakeFirst(old(store.rows), events, |events|, source))
      ensures status == PollStatus.Stopped ==> input.writes < 3 * |events|
    {
      ghost var first, n := store.rows, 0;
      status, n := ImportInBatches(input, source, events, world, began, start, cutoff, ends);
      if status == Done {
        AllReportedStored(world, start, cutoff, input.trims, ends, events, store.rows, source, checkpoint);
      } else if !CanTakeFirst(first, events, n, source) {
        NotAll(first, events, n, source);
      }
    }

    /** The loop over the batches, each followed by its checkpoint; it got to the end of the batch that ends at `n`. */
    method ImportInBatches(
        input: PollInput, source: string, events: seq<Event>, ghost world: set<Event>, ghost began: int,
        ghost start: int, ghost cutoff: int, ghost ends: map<int, int>)
      returns (status: PollStatus, ghost n: nat)
      requires Between(world, began, start, cutoff, input.trims, ends, events, 0, source)
      modifies this, store
      ensures Inv(world)
      ensures NotMovedBack(old(checkpoint), checkpoint) && old(store.rows) <= store.rows
      ensures AddsOnly(old(store.rows), store.rows, events, source)
      ensures firstStart == if old(checkpoint) == None && checkpoint.Some? then began else old(firstStart)
      ensures horizon == old(horizon)
      ensures n <= |events| && (status == Done ==> n == |events|)
      ensures status == Done ==> Between(world, began, start, cutoff, input.trims, ends, events, |events|, source)
      ensures status == Done && |events| > 0 ==>
                checkpoint.Some? && AtOrBefore(events[|events| - 1], checkpoint.value)
      ensures Calm(input.faults) && status != PollStatus.Stopped ==>
                (status == Done <==> CanTakeFirst(old(store.rows), events, n, source))
      ensures status == PollStatus.Stopped ==> input.writes < 3 * |events|
    {
      ghost var first := store.rows;
      NothingResolved(events, first, source);
      var offset, step := 0, 0;
      var writes: nat := input.writes;
      while offset < |events|
        invariant 0 <= offset <= |events|
        invariant Between(world, began, start, cutoff, input.trims, ends, events, offset, source)
        invariant RestKept(events, offset, first, store.rows)
        invariant Calm(input.faults) ==> CanTakeFirst(first, events, offset, source)
        invariant writes + 3 * offset >= input.writes
        invariant horizon == old(horizon)
        invariant offset > 0 ==> checkpoint.Some? && AtOrBefore(events[offset - 1], checkpoint.value)
        invariant NotMovedBack(old(checkpoint), checkpoint) && old(store.rows) <= store.rows
        invariant AddsOnly(first, store.rows, events, source)
        invariant firstStart == if old(checkpoint) == None && checkpoint.Some? then began else old(firstStart)
        decreases |events| - offset
      {
        var end := if offset + settings.limits.pageSize > |events| then |events| else offset + settings.limits.pageSize;
        ghost var soFar := store.rows;
        status, step, writes := ImportNext(input, source, events, offset, end, step, writes, world, began, start,
            cutoff, ends, first);
        AddsFurther(first, soFar, store.rows, events, source);
        offset := end;
        if status != Done {
          return status, end;
        }
      }
      return Done, |events|;
    }

    lemma NotAll(rows: seq<EventRow>, events: seq<Event>, n: nat, source: string)
      requires n <= |events| && !CanTakeFirst(rows, events, n, source)
      ensures !CanTakeFirst(rows, events, |events|, source)
    {
    }

    /** Earlier batches do not decide whether the events of this one can be taken in. */
    lemma TakesNext(
        before: seq<EventRow>, rows: seq<EventRow>, events: seq<Event>, offset: nat, end: nat, source: string)
      requires offset <= end <= |events| && RestKept(events, offset, before, rows)
      requires CanTakeFirst(before, events, offset, source)
      ensures CanTakeFirst(rows, events[offset..end], end - offset, source) <==>
                CanTakeFirst(before, events, end, source)
    {
      var batch := events[offset..end];
      forall k | offset <= k < end
        ensures CanTake(rows, batch[k - offset], source) <==> CanTake(before, events[k], source)
      {
        assert batch[k - offset] == events[k];
      }
    }

    /** One batch, then its checkpoint. */
    method ImportNext(
        input: PollInput, source: string, events: seq<Event>, offset: nat, end: nat, step: nat, writes: nat,
        ghost world: set<Event>, ghost began: int, ghost start: int, ghost cutoff: int, ghost ends: map<int, int>,
        ghost first: seq<EventRow>)
      returns (status: PollStatus, step': nat, writes': nat)
      requires RestKept(events, offset, first, store.rows)
      requires offset < end <= |events| && end - offset <= settings.limits.pageSize
      requires Between(world, began, start, cutoff, input.trims, ends, events, offset, source)
      modifies this, store
      ensures Inv(world)
      ensures NotMovedBack(old(checkpoint), checkpoint) && old(store.rows) <= store.rows
      ensures AddsOnly(old(store.rows), store.rows, events, source)
      ensures firstStart == if old(checkpoint) == None && checkpoint.Some? then began else old(firstStart)
      ensures horizon == old(horizon)
      ensures status == Done ==>
                && Between(world, began, start, cutoff, input.trims, ends, events, end, source)
                && checkpoint.Some? && AtOrBefore(events[end - 1], checkpoint.value)
      ensures RestKept(events, end, first, store.rows)
      ensures Calm(input.faults) && CanTakeFirst(first, events, offset, source) && status != PollStatus.Stopped ==>
                (status == Done <==> CanTakeFirst(first, events, end, source))
      ensures status == PollStatus.Stopped ==> writes < 3 * (end - offset)
      ensures status == Done ==> writes' + 3 * (end - offset) >= writes
    {
      var batch := events[offset..end];
      assert forall e :: e in batch ==> e in events;
      ghost var before := store.rows;
      status, step', writes' := ImportBatch(batch, source, input.now, input.faults, step, writes);
      BetweenKept(world, began, start, before, events, offset, source);
      AddsForMore(before, store.rows, batch, events, source);
      if CanTakeFirst(first, events, offset, source) {
        TakesNext(first, before, events, offset, end, source);
      }
      RestAfterBatch(events, offset, end, first, before, store.rows);
      if status == Done {
        StoredBatch(events, offset, end, store.rows, source);
        status, writes' := Advance(
          events, end, writes', world, began, start, cutoff, input.trims, ends, source);
      }
    }

    lemma StoredBatch(events: seq<Event>, offset: nat, end: nat, rows: seq<EventRow>, source: string)
      requires offset <= end <= |events| && StoredThrough(events, offset, rows, source)
      requires StoredThrough(events[offset..end], end - offset, rows, source)
      ensures StoredThrough(events, end, rows, source)
    {
      forall k | offset <= k < end
        ensures Kept(rows, events[k], source)
      {
        assert events[offset..end][k - offset] == events[k];
      }
    }

    /** Rows that only grew keep what was stored. */
    lemma BetweenKept(
        world: set<Event>, began: int, start: int, before: seq<EventRow>, events: seq<Event>, n: nat, source: string)
      requires n <= |events| && before <= store.rows
      requires checkpoint.Some? ==> Covered(world, firstStart, checkpoint.value, before)
      requires OlderStored(world, began, start, before) && StoredThrough(events, n, before, source)
      ensures checkpoint.Some? ==> Covered(world, firstStart, checkpoint.value, store.rows)
      ensures OlderStored(world, began, start, store.rows) && StoredThrough(events, n, store.rows, source)
    {
      StoredGrows(events, n, before, store.rows, source);
      forall e | HasBase(before, e)
        ensures HasBase(store.rows, e)
      {
        var i :| 0 <= i < |before| && IsBaseOf(before[i], e);
        assert IsBaseOf(store.rows[i], e);
      }
    }

    /** Move the checkpoint to the last event of the batch that ends at `end`, unless it is already past it. */
    method Advance(
        events: seq<Event>, end: nat, writes: nat, ghost world: set<Event>, ghost began: int, ghost start: int,
        ghost cutoff: int, ghost trims: bool, ghost ends: map<int, int>, ghost source: string)
      returns (status: PollStatus, writes': nat)
      requires 0 < end <= |events|
      requires Between(world, began, start, cutoff, trims, ends, events, end, source)
      modifies this
      ensures Between(world, began, start, cutoff, trims, ends, events, end, source)
      ensures NotMovedBack(old(checkpoint), checkpoint) && horizon == old(horizon)
      ensures firstStart == if old(checkpoint) == None && checkpoint.Some? then began else old(firstStart)
      ensures status != PollStatus.Failed && (status == PollStatus.Stopped ==> writes == 0)
      ensures writes' + 1 >= writes
      ensures status == Done ==> checkpoint.Some? && AtOrBefore(events[end - 1], checkpoint.value)
    {
      var last := events[end - 1];
      assert last in events;
      if checkpoint.Some? && !TupleAfter(last.At(), last.id, checkpoint.value) {
        return Done, writes;
      }
      if writes == 0 {
        return PollStatus.Stopped, writes;
      }
      var next := Checkpoint(bucket, last.At(), last.id);
      CheckpointCovers(world, began, start, cutoff, trims, ends, events, end, store.rows, source, bucket);
      firstStart := began;
      var error := SaveCheckpoint(next);
      assert error == None && checkpoint == Some(next);
      return Done, writes - 1;
    }

    /** The bucket may meanwhile have gained later events and longer durations. */
    lemma InvSurvivesGrowth(world: set<Event>, world': set<Event>)
      requires Inv(world) && GrowsLater(world, world', horizon)
      ensures Inv(world')
    {
    }

    /**
     Every run of polls, each cut short anywhere, over a bucket that only ever gains events later than the cutoffs
     seen so far: at every point in between, what the checkpoint has passed is stored and it has never moved back.
     What any completed poll was to report is in the table at the end, with the duration it was reported with.
     */
    method RunPolls(inputs: seq<PollInput>, source: string, ghost worlds: seq<set<Event>>, ghost world: set<Event>)
      returns (statuses: seq<PollStatus>, ghost befores: seq<Option<Checkpoint>>)
      requires Inv(world)
      requires |worlds| == |inputs|
      requires forall k :: 0 <= k < |inputs| ==> FaithfulAlways(inputs[k], worlds[k], settings.limits.pageSize)
      requires forall k :: 0 <= k < |inputs| ==> WorldFollows(inputs, worlds, world, k, horizon)
      modifies this, store
      ensures Inv(if |worlds| == 0 then world else worlds[|worlds| - 1])
      ensures NotMovedBack(old(checkpoint), checkpoint) && old(store.rows) <= store.rows
      ensures |statuses| == |befores| == |inputs| && Ascends(befores + [checkpoint])
      ensures |befores| > 0 ==> befores[0] == old(checkpoint)
      ensures AllComplete(inputs, worlds, statuses, befores, source, store.rows, checkpoint)
      ensures BeganWith(inputs, befores + [checkpoint], old(firstStart), firstStart)
      ensures AllReports(inputs, worlds, befores, |old(store.rows)|, store.rows, source)
    {
      statuses, befores := [], [];
      for k := 0 to |inputs|
        invariant |statuses| == |befores| == k && Ascends(befores + [checkpoint])
        invariant if k == 0 then checkpoint == old(checkpoint) else befores[0] == old(checkpoint)
        invariant AllComplete(inputs, worlds, statuses, befores, source, store.rows, checkpoint)
        invariant BeganWith(inputs, befores + [checkpoint], old(firstStart), firstStart)
        invariant AllReports(inputs, worlds, befores, |old(store.rows)|, store.rows, source)
        invariant Inv(if k == 0 then world else worlds[k - 1])
        invariant NotMovedBack(old(checkpoint), checkpoint) && old(store.rows) <= store.rows
        invariant horizon == HorizonBefore(inputs, k, old(horizon))
      {
        assert WorldFollows(inputs, worlds, world, k, old(horizon));
        InvSurvivesGrowth(if k == 0 then world else worlds[k - 1], worlds[k]);
        ghost var rows, before, began := store.rows, checkpoint, firstStart;
        var status := Poll(inputs[k], source, worlds[k]);
        CompletesStay(inputs, worlds, statuses, befores, source, rows, store.rows, before, checkpoint);
        AlsoComplete(inputs, worlds, statuses, befores, source, store.rows, checkpoint, status, before);
        BeganEarlier(inputs, befores, before, checkpoint, old(firstStart), began, firstStart);
        MoreReports(inputs, worlds, befores, before, |old(store.rows)|, rows, store.rows, source);
        AscendsFurther(befores, before, checkpoint);
        statuses, befores := statuses + [status], befores + [before];
      }
    }

    /** `first` is where the poll started that saved the first checkpoint, or as before if none did. */
    ghost predicate BeganWith(
        inputs: seq<PollInput>, checkpoints: seq<Option<Checkpoint>>, before: int, first: int)
      requires 0 < |checkpoints| <= |inputs| + 1
    {
      && (forall k :: 0 <= k < |checkpoints| - 1 && checkpoints[k] == None && checkpoints[k + 1].Some? ==>
            first == inputs[k].now - settings.lookback)
      && (checkpoints[0].Some? || checkpoints[|checkpoints| - 1] == None ==> first == before)
    }

    lemma BeganEarlier(
        inputs: seq<PollInput>, earlier: seq<Option<Checkpoint>>, last: Option<Checkpoint>, next: Option<Checkpoint>,
        before: int, began: int, first: int)
      requires |earlier| < |inputs| && Ascends(earlier + [last]) && NotMovedBack(last, next)
      requires BeganWith(inputs, earlier + [last], before, began)
      requires first == if last == None && next.Some? then inputs[|earlier|].now - settings.lookback else began
      ensures BeganWith(inputs, earlier + [last] + [next], before, first)
    {
      var checkpoints, longer := earlier + [last], earlier + [last] + [next];
      assert |earlier| > 0 ==> NotMovedBack(checkpoints[0], checkpoints[|earlier|]);
      forall k | 0 <= k < |longer| - 1 && longer[k] == None && longer[k + 1].Some?
        ensures first == inputs[k].now - settings.lookback
      {
        if k < |earlier| {
          assert checkpoints[k + 1].Some?;
          assert k + 1 < |earlier| ==> NotMovedBack(checkpoints[k + 1], checkpoints[|earlier|]);
        }
      }
    }

    /** Each poll that completed has everything it was to report, from where it started, in these rows. */
    ghost predicate AllComplete(
        inputs: seq<PollInput>, worlds: seq<set<Event>>, statuses: seq<PollStatus>, befores: seq<Option<Checkpoint>>,
        source: string, rows: seq<EventRow>, reached: Option<Checkpoint>)
      requires |statuses| == |befores| <= |inputs| == |worlds|
    {
      forall k :: 0 <= k < |statuses| && statuses[k] == Done ==>
        Complete(inputs[k], worlds[k], StartOf(befores[k], inputs[k].now), source, rows, reached)
    }

    /** Every row from the `from`-th on is a report of an event as one of the polls was to report it. */
    ghost predicate AllReports(
        inputs: seq<PollInput>, worlds: seq<set<Event>>, befores: seq<Option<Checkpoint>>, from: nat,
        rows: seq<EventRow>, source: string)
      requires |befores| <= |inputs| == |worlds|
    {
      forall i :: from <= i < |rows| ==> SomePollReports(inputs, worlds, befores, rows[i], source)
    }

    ghost predicate SomePollReports(
        inputs: seq<PollInput>, worlds: seq<set<Event>>, befores: seq<Option<Checkpoint>>, row: EventRow,
        source: string)
      requires |befores| <= |inputs| == |worlds|
    {
      exists k :: 0 <= k < |befores| && PollReports(inputs[k], worlds[k], befores[k], row, source)
    }

    ghost predicate PollReports(
        input: PollInput, world: set<Event>, before: Option<Checkpoint>, row: EventRow, source: string)
    {
      var start := StartOf(before, input.now);
      ReportsShown(row, world, start, input.now - settings.lateness, input.trims, EndsOf(input, start), source)
    }

    lemma MoreReports(
        inputs: seq<PollInput>, worlds: seq<set<Event>>, earlier: seq<Option<Checkpoint>>, last: Option<Checkpoint>,
        from: nat, rows: seq<EventRow>, more: seq<EventRow>, source: string)
      requires |earlier| < |inputs| == |worlds| && from <= |rows|
      requires AllReports(inputs, worlds, earlier, from, rows, source)
      requires AddsIts(inputs[|earlier|], worlds[|earlier|], StartOf(last, inputs[|earlier|].now), rows, more, source)
      ensures AllReports(inputs, worlds, earlier + [last], from, more, source)
    {
      var befores := earlier + [last];
      forall i | from <= i < |more|
        ensures SomePollReports(inputs, worlds, befores, more[i], source)
      {
        if i < |rows| {
          assert more[i] == rows[i];
          var k :| 0 <= k < |earlier| && PollReports(inputs[k], worlds[k], earlier[k], rows[i], source);
          assert befores[k] == earlier[k];
        } else {
          assert PollReports(inputs[|earlier|], worlds[|earlier|], befores[|earlier|], more[i], source);
        }
      }
    }

    lemma AlsoComplete(
        inputs: seq<PollInput>, worlds: seq<set<Event>>, statuses: seq<PollStatus>, befores: seq<Option<Checkpoint>>,
        source: string, rows: seq<EventRow>, reached: Option<Checkpoint>, status: PollStatus, last: Option<Checkpoint>)
      requires |statuses| == |befores| < |inputs| == |worlds|
      requires AllComplete(inputs, worlds, statuses, befores, source, rows, reached)
      requires status == Done ==>
                 Complete(inputs[|befores|], worlds[|befores|], StartOf(last, inputs[|befores|].now), source, rows,
                     reached)
      ensures AllComplete(inputs, worlds, statuses + [status], befores + [last], source, rows, reached)
    {
    }

    lemma CompletesStay(
        inputs: seq<PollInput>, worlds: seq<set<Event>>, statuses: seq<PollStatus>, befores: seq<Option<Checkpoint>>,
        source: string, rows: seq<EventRow>, more: seq<EventRow>, before: Option<Checkpoint>,
        after: Option<Checkpoint>)
      requires |statuses| == |befores| <= |inputs| == |worlds|
      requires AllComplete(inputs, worlds, statuses, befores, source, rows, before)
      requires rows <= more && NotMovedBack(before, after)
      ensures AllComplete(inputs, worlds, statuses, befores, source, more, after)
    {
      forall k | 0 <= k < |statuses| && statuses[k] == Done
        ensures Complete(inputs[k], worlds[k], StartOf(befores[k], inputs[k].now), source, more, after)
      {
        var start, cutoff := StartOf(befores[k], inputs[k].now), inputs[k].now - settings.lateness;
        if start < cutoff {
          StoredStays(worlds[k], start, cutoff, inputs[k].trims, EndsOf(inputs[k], start), source, rows, more, before,
                      after);
        }
      }
    }

    /** The latest cutoff among the first `k` polls. */
    ghost function HorizonBefore(inputs: seq<PollInput>, k: nat, initial: int): int
      requires k <= |inputs|
    {
      if k == 0 then initial
      else
        var before, cutoff := HorizonBefore(inputs, k - 1, initial), inputs[k - 1].now - settings.lateness;
        if cutoff > before then cutoff else before
    }

    ghost predicate WorldFollows(
        inputs: seq<PollInput>, worlds: seq<set<Event>>, world: set<Event>, k: nat, initial: int)
      requires k < |inputs| == |worlds|
    {
      GrowsLater(if k == 0 then world else worlds[k - 1], worlds[k], HorizonBefore(inputs, k, initial))
    }
  }

}
