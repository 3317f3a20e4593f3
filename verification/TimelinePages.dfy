/**
 The timeline table and its pages (internal/eventstore/timeline.go): rows keyed by source are upserted by every sync,
 and pages follow a five-part key under a snapshot id. Times are the stored texts, compared as SQLite compares them.
 */
module TimelinePages {
  import opened Options
  import opened Ordering
  import opened Paging

  datatype Projection = Projection(source: string, sourceId: nat, corrected: string, received: string, rest: string)

  /** A stored row; its id is its position, counted from one. */
  datatype Entry = Entry(id: nat, item: Projection)

  datatype Key = Key(corrected: string, received: string, source: string, sourceId: nat, id: nat)

  datatype Cursor = Cursor(rangeStart: string, rangeEnd: string, snapshotId: nat, at: Key)

  datatype PageResult = Page(snapshotId: nat, entries: seq<Entry>, next: Option<Cursor>) | RangeInvalid | CursorInvalid

  const START_KEY := Key("", "", "", 0, 0)
  const SOURCES := {"raw_event", "heartbeat", "media_segment"}

  function KeyOf(e: Entry): Key {
    Key(e.item.corrected, e.item.received, e.item.source, e.item.sourceId, e.id)
  }

  function Keys(entries: seq<Entry>): (r: seq<Key>)
    ensures |r| == |entries| && forall i :: 0 <= i < |r| ==> r[i] == KeyOf(entries[i])
  {
    seq(|entries|, i requires 0 <= i < |entries| => KeyOf(entries[i]))
  }

  /** ORDER BY corrected_start_utc, received_at_utc, source_type, source_id, id. */
  predicate KeyLess(a: Key, b: Key) {
    if a.corrected != b.corrected then TextLess(a.corrected, b.corrected)
    else if a.received != b.received then TextLess(a.received, b.received)
    else if a.source != b.source then TextLess(a.source, b.source)
    else if a.sourceId != b.sourceId then a.sourceId < b.sourceId
    else a.id < b.id
  }

  lemma KeyLessIsStrictOrder()
    ensures StrictOrder(KeyLess)
  {
    forall a, b
      ensures !(KeyLess(a, b) && KeyLess(b, a)) && (KeyLess(a, b) || a == b || KeyLess(b, a))
    {
      TextTrichotomy(a.corrected, b.corrected);
      TextTrichotomy(a.received, b.received);
      TextTrichotomy(a.source, b.source);
    }
    forall a, b, c | KeyLess(a, b) && KeyLess(b, c)
      ensures KeyLess(a, c)
    {
      KeyLessTransitive(a, b, c);
    }
  }

  lemma KeyLessTransitive(a: Key, b: Key, c: Key)
    requires KeyLess(a, b) && KeyLess(b, c)
    ensures KeyLess(a, c)
  {
    if a.corrected != b.corrected && b.corrected != c.corrected {
      TextTransitive(a.corrected, b.corrected, c.corrected);
      TextTrichotomy(a.corrected, c.corrected);
    } else if a.corrected == b.corrected == c.corrected {
      if a.received != b.received && b.received != c.received {
        TextTransitive(a.received, b.received, c.received);
        TextTrichotomy(a.received, c.received);
      } else if a.received == b.received == c.received && a.source != b.source && b.source != c.source {
        TextTransitive(a.source, b.source, c.source);
        TextTrichotomy(a.source, c.source);
      }
    }
  }

  /** The continuation clause of the query, part by part. */
  predicate After(c: Key, e: Entry) {
    || c.corrected == ""
    || TextLess(c.corrected, e.item.corrected)
    || (e.item.corrected == c.corrected && TextLess(c.received, e.item.received))
    || (e.item.corrected == c.corrected && e.item.received == c.received && TextLess(c.source, e.item.source))
    || (e.item.corrected == c.corrected && e.item.received == c.received && e.item.source == c.source
        && c.sourceId < e.item.sourceId)
    || (e.item.corrected == c.corrected && e.item.received == c.received && e.item.source == c.source
        && e.item.sourceId == c.sourceId && c.id < e.id)
  }

  lemma AfterIsKeyOrder(c: Key, e: Entry)
    requires c.corrected != ""
    ensures After(c, e) <==> KeyLess(c, KeyOf(e))
  {
    TextTrichotomy(c.corrected, e.item.corrected);
    TextTrichotomy(c.received, e.item.received);
    TextTrichotomy(c.source, e.item.source);
  }

  predicate InRange(e: Entry, start: string, end: string) {
    !TextLess(e.item.corrected, start) && TextLess(e.item.corrected, end)
  }

  /** The fixed layout has thirty characters; RFC 3339 text with fewer fraction digits is shorter. */
  predicate Fixed(text: string) {
    |text| == 30
  }

  /** What `decodeTimelineCursor` lets through. */
  predicate ValidCursor(c: Cursor) {
    && c.at.id <= c.snapshotId && TextLess(c.rangeStart, c.rangeEnd)
    && (c.at.id > 0 ==> c.at.sourceId > 0 && c.at.source in SOURCES && Fixed(c.at.corrected) && Fixed(c.at.received))
  }

  // ----- the table -----

  /** Rows are numbered by position, sources are unique, and all but the received time has the fixed layout. */
  ghost predicate WellFormed(entries: seq<Entry>) {
    && (forall i :: 0 <= i < |entries| ==> entries[i].id == i + 1 && WellFormedItem(entries[i].item))
    && (forall i, j {:trigger SameSource(entries[i].item, entries[j].item)} :: 0 <= i < j < |entries| ==>
        !SameSource(entries[i].item, entries[j].item))
  }

  predicate WellFormedItem(p: Projection) {
    p.sourceId > 0 && p.source in SOURCES && Fixed(p.corrected)
  }

  predicate SameSource(a: Projection, b: Projection) {
    a.source == b.source && a.sourceId == b.sourceId
  }

  /** Source rows are immutable: the same source always has the same times. */
  ghost predicate Immutable(items: set<Projection>) {
    forall a, b {:trigger SameSource(a, b)} :: a in items && b in items && SameSource(a, b) ==>
        a.corrected == b.corrected && a.received == b.received
  }

  /** Every row of `before` keeps its id and key. */
  ghost predicate KeysKept(before: seq<Entry>, after: seq<Entry>) {
    |before| <= |after| && forall i :: 0 <= i < |before| ==> KeyOf(after[i]) == KeyOf(before[i])
  }

  /** The keys of a snapshot inside a range. */
  ghost function SnapshotKeys(entries: seq<Entry>, snapshot: nat, start: string, end: string): set<Key> {
    set i | 0 <= i < |entries| && entries[i].id <= snapshot && InRange(entries[i], start, end) :: KeyOf(entries[i])
  }

  lemma SnapshotIsStable(before: seq<Entry>, after: seq<Entry>, start: string, end: string)
    requires WellFormed(before) && WellFormed(after) && KeysKept(before, after)
    ensures SnapshotKeys(after, |before|, start, end) == SnapshotKeys(before, |before|, start, end)
  {
  }

  const CHUNK_SIZE: nat := 128

  ghost predicate Stored(entries: seq<Entry>, item: Projection) {
    exists i :: 0 <= i < |entries| && entries[i].item == item
  }

  /** Every row is as before, or holds one of the items. */
  ghost predicate OnlySynced(before: seq<Entry>, after: seq<Entry>, items: seq<Projection>) {
    forall i {:trigger after[i]} :: 0 <= i < |after| ==>
      after[i].item in items || (i < |before| && after[i] == before[i])
  }

  lemma OnlySyncedFurther(a: seq<Entry>, b: seq<Entry>, c: seq<Entry>, items: seq<Projection>)
    requires OnlySynced(a, b, items) && OnlySynced(b, c, items)
    ensures OnlySynced(a, c, items)
  {
  }

  ghost predicate AllStored(entries: seq<Entry>, items: seq<Projection>) {
    forall i :: 0 <= i < |items| ==> Stored(entries, items[i])
  }

  ghost predicate DistinctSources(items: seq<Projection>) {
    forall i, j :: 0 <= i < j < |items| ==> !SameSource(items[i], items[j])
  }

  lemma UpdateStores(entries: seq<Entry>, n: nat, item: Projection)
    requires n < |entries| && SameSource(entries[n].item, item)
    ensures var after := entries[n := Entry(n + 1, item)];
            Stored(after, item) && forall other :: Stored(entries, other) && !SameSource(other, item) ==>
                Stored(after, other)
  {
    var after := entries[n := Entry(n + 1, item)];
    assert after[n].item == item;
    forall other | Stored(entries, other) && !SameSource(other, item)
      ensures Stored(after, other)
    {
      var i :| 0 <= i < |entries| && entries[i].item == other;
      assert after[i].item == other;
    }
  }

  lemma AppendStores(entries: seq<Entry>, item: Projection)
    ensures var after := entries + [Entry(|entries| + 1, item)];
            Stored(after, item) && forall other :: Stored(entries, other) ==> Stored(after, other)
  {
    var after := entries + [Entry(|entries| + 1, item)];
    assert after[|entries|].item == item;
    forall other | Stored(entries, other)
      ensures Stored(after, other)
    {
      var i :| 0 <= i < |entries| && entries[i].item == other;
      assert after[i].item == other;
    }
  }

  lemma KeysKeptTransitive(a: seq<Entry>, b: seq<Entry>, c: seq<Entry>)
    requires KeysKept(a, b) && KeysKept(b, c)
    ensures KeysKept(a, c)
  {
  }

  class Timeline {
    var entries: seq<Entry>
    const maxPageSize: nat
    /** Every projection that can ever be collected: source rows are immutable, so their times never vary. */
    ghost const world: set<Projection>

    ghost predicate Valid()
      reads this
    {
      WellFormed(entries) && Immutable(world) && forall i :: 0 <= i < |entries| ==> entries[i].item in world
    }

    constructor (maximum: nat, ghost items: set<Projection>)
      requires Immutable(items)
      ensures Valid() && entries == [] && world == items && maxPageSize == maximum
    {
      entries, maxPageSize, world := [], maximum, items;
    }

    /** One upsert: a known source is updated in place, a new one gets the next id. */
    method Upsert(item: Projection)
      requires Valid() && item in world && WellFormedItem(item)
      modifies this
      ensures Valid() && KeysKept(old(entries), entries)
      ensures Stored(entries, item)
      ensures forall other :: Stored(old(entries), other) && !SameSource(other, item) ==> Stored(entries, other)
      ensures |entries| <= |old(entries)| + 1 && OnlySynced(old(entries), entries, [item])
    {
      var found := Find(item);
      if found < |entries| {
        assert SameSource(entries[found].item, item);
        UpdateWellFormed(entries, found, item);
        UpdateStores(entries, found, item);
        entries := entries[found := Entry(found + 1, item)];
      } else {
        AppendStores(entries, item);
        entries := entries + [Entry(|entries| + 1, item)];
      }
    }

    method Find(item: Projection) returns (n: nat)
      ensures n <= |entries|
      ensures n < |entries| ==> SameSource(entries[n].item, item)
      ensures n == |entries| ==> forall i :: 0 <= i < |entries| ==> !SameSource(entries[i].item, item)
    {
      n := 0;
      while n < |entries| && !SameSource(entries[n].item, item)
        invariant n <= |entries| && forall i :: 0 <= i < n ==> !SameSource(entries[i].item, item)
      {
        n := n + 1;
      }
    }

    /** A sync writes what it collected, a chunk a transaction; rows already there keep their ids and keys. */
    method UpsertAll(items: seq<Projection>)
      requires Valid() && forall i :: 0 <= i < |items| ==> items[i] in world && WellFormedItem(items[i])
      modifies this
      ensures Valid() && KeysKept(old(entries), entries)
      ensures DistinctSources(items) ==> forall i :: 0 <= i < |items| ==> Stored(entries, items[i])
      ensures OnlySynced(old(entries), entries, items)
    {
      var offset := 0;
      while offset < |items|
        invariant offset <= |items| && Valid() && KeysKept(old(entries), entries)
        invariant OnlySynced(old(entries), entries, items)
        invariant DistinctSources(items) ==> forall i :: 0 <= i < offset ==> Stored(entries, items[i])
      {
        var end := if offset + CHUNK_SIZE > |items| then |items| else offset + CHUNK_SIZE;
        ghost var before := entries;
        UpsertChunk(items, offset, end);
        KeysKeptTransitive(old(entries), before, entries);
        OnlySyncedFurther(old(entries), before, entries, items);
        offset := end;
      }
    }

    method UpsertChunk(items: seq<Projection>, from: nat, to: nat)
      requires from <= to <= |items|
      requires Valid() && forall i :: 0 <= i < |items| ==> items[i] in world && WellFormedItem(items[i])
      modifies this
      ensures Valid() && KeysKept(old(entries), entries)
      ensures DistinctSources(items) && (forall i :: 0 <= i < from ==> Stored(old(entries), items[i])) ==>
                forall i :: 0 <= i < to ==> Stored(entries, items[i])
      ensures OnlySynced(old(entries), entries, items)
    {
      for k := from to to
        invariant Valid() && KeysKept(old(entries), entries) && OnlySynced(old(entries), entries, items)
        invariant DistinctSources(items) && (forall i :: 0 <= i < from ==> Stored(old(entries), items[i])) ==>
                    forall i :: 0 <= i < k ==> Stored(entries, items[i])
      {
        ghost var before := entries;
        Upsert(items[k]);
        KeysKeptTransitive(old(entries), before, entries);
        assert OnlySynced(before, entries, items);
        OnlySyncedFurther(old(entries), before, entries, items);
      }
    }

    /** The keys that the WHERE clause selects, each once. */
    method Select(snapshot: nat, start: string, end: string, at: Key) returns (keys: seq<Key>)
      requires Valid()
      ensures forall i, j :: 0 <= i < j < |keys| ==> keys[i] != keys[j]
      ensures forall i :: 0 <= i < |keys| ==> IsKeyOf(keys[i], |entries|, snapshot, start, end, at)
      ensures forall i :: 0 <= i < |entries| && Selected(entries[i], snapshot, start, end, at) ==>
                KeyOf(entries[i]) in keys
    {
      keys := [];
      for n := 0 to |entries|
        invariant forall i :: 0 <= i < |keys| ==> IsKeyOf(keys[i], n, snapshot, start, end, at)
        invariant forall i, j :: 0 <= i < j < |keys| ==> keys[i].id < keys[j].id
        invariant forall i :: 0 <= i < n && Selected(entries[i], snapshot, start, end, at) ==> KeyOf(entries[i]) in keys
      {
        if Selected(entries[n], snapshot, start, end, at) {
          keys := keys + [KeyOf(entries[n])];
        }
      }
    }

    /** The key of a selected row among the first `n`. */
    predicate IsKeyOf(k: Key, n: nat, snapshot: nat, start: string, end: string, at: Key)
      requires n <= |entries|
      reads this
    {
      1 <= k.id <= n && KeyOf(entries[k.id - 1]) == k && Selected(entries[k.id - 1], snapshot, start, end, at)
    }

    /**
     One page of the range: the next `limit` snapshot rows in key order, and a cursor if and only if more remain. The
     first page syncs the projection and takes the snapshot.
     */
    method QueryTimeline(start: string, end: string, cursor: Option<Cursor>, limit: int, sync: seq<Projection>)
      returns (r: PageResult)
      requires Valid() && forall i :: 0 <= i < |sync| ==> sync[i] in world && WellFormedItem(sync[i])
      modifies this
      ensures Valid() && KeysKept(old(entries), entries) && (cursor.Some? ==> entries == old(entries))
      ensures r.RangeInvalid? <==> !TextLess(start, end) || limit < 1 || limit > maxPageSize
      ensures r.CursorInvalid? <==> !r.RangeInvalid? && cursor.Some?
                                    && !(ValidCursor(cursor.value) && cursor.value.rangeStart == start
                                        && cursor.value.rangeEnd == end)
      ensures r.Page? ==>
                && (forall i :: 0 <= i < |r.entries| ==> r.entries[i] in entries)
                && if cursor.Some? then Answers(r, entries, cursor.value.snapshotId, start, end, cursor.value.at, limit)
                   else Answers(r, entries, |entries|, start, end, START_KEY, limit)
      ensures cursor == None && r.Page? && DistinctSources(sync) ==> AllStored(entries, sync)
      ensures OnlySynced(old(entries), entries, sync)
    {
      if !TextLess(start, end) || limit < 1 || limit > maxPageSize { return RangeInvalid; }
      var snapshot, at := 0, START_KEY;
      if cursor.Some? {
        if !(ValidCursor(cursor.value) && cursor.value.rangeStart == start
            && cursor.value.rangeEnd == end) { return CursorInvalid; }
        snapshot, at := cursor.value.snapshotId, cursor.value.at;
      } else {
        UpsertAll(sync);
        snapshot := |entries|;
      }
      var keys, more := SelectPage(snapshot, start, end, at, limit);
      var rows := Rows(keys);
      r := Page(snapshot, rows, if more then Some(Cursor(start, end, snapshot, KeyOf(rows[|rows| - 1]))) else None);
    }

    method SelectPage(snapshot: nat, start: string, end: string, at: Key, limit: nat)
      returns (keys: seq<Key>, more: bool)
      requires Valid()
      ensures var wanted := RemainingKeys(entries, snapshot, start, end, at);
              IsPage(KeyLess, keys, wanted, limit) && (more <==> |wanted| > limit)
      ensures forall i :: 0 <= i < |keys| ==> 1 <= keys[i].id <= |entries| && KeyOf(entries[keys[i].id - 1]) == keys[i]
    {
      var selected := Select(snapshot, start, end, at);
      KeyLessIsStrictOrder();
      keys, more := OrderedPage(selected, KeyLess, limit);
      MembersSize(selected);
      assert Members(selected) == RemainingKeys(entries, snapshot, start, end, at);
      forall i | 0 <= i < |keys|
        ensures 1 <= keys[i].id <= |entries| && KeyOf(entries[keys[i].id - 1]) == keys[i]
      {
        assert keys[i] in Members(keys) && keys[i] in selected;
      }
    }

    /** The rows of the selected keys. */
    method Rows(keys: seq<Key>) returns (rows: seq<Entry>)
      requires forall i :: 0 <= i < |keys| ==> 1 <= keys[i].id <= |entries| && KeyOf(entries[keys[i].id - 1]) == keys[i]
      ensures Keys(rows) == keys && forall i :: 0 <= i < |rows| ==> rows[i] in entries
    {
      rows := [];
      for n := 0 to |keys|
        invariant |rows| == n && forall i :: 0 <= i < n ==> rows[i] in entries && KeyOf(rows[i]) == keys[i]
      {
        rows := rows + [entries[keys[n].id - 1]];
      }
    }
  }

  predicate Selected(e: Entry, snapshot: nat, start: string, end: string, at: Key) {
    e.id <= snapshot && InRange(e, start, end) && After(at, e)
  }

  /** The keys a cursor still has ahead of it. */
  ghost function RemainingKeys(entries: seq<Entry>, snapshot: nat, start: string, end: string, at: Key): set<Key> {
    set i | 0 <= i < |entries| && Selected(entries[i], snapshot, start, end, at) :: KeyOf(entries[i])
  }

  /** The page holds the next `limit` of the wanted rows, and a cursor if and only if there are more. */
  ghost predicate Answers(
      r: PageResult, entries: seq<Entry>, snapshot: nat, start: string, end: string, at: Key, limit: nat)
    requires r.Page?
  {
    var wanted := RemainingKeys(entries, snapshot, start, end, at);
    && r.snapshotId == snapshot
    && IsPage(KeyLess, Keys(r.entries), wanted, limit)
    && (|wanted| > limit ==> r.entries != [])
    && r.next == (if |wanted| <= limit then None
        else Some(Cursor(start, end, snapshot, KeyOf(r.entries[|r.entries| - 1]))))
  }

  lemma UpdateWellFormed(entries: seq<Entry>, n: nat, item: Projection)
    requires WellFormed(entries) && n < |entries| && SameSource(entries[n].item, item) && WellFormedItem(item)
    ensures WellFormed(entries[n := Entry(n + 1, item)])
  {
    var after := entries[n := Entry(n + 1, item)];
    forall i, j | 0 <= i < j < |after|
      ensures !SameSource(after[i].item, after[j].item)
    {
      assert !SameSource(entries[i].item, entries[j].item);
    }
  }

  // ----- walks -----

  lemma FromTheStart(entries: seq<Entry>, snapshot: nat, start: string, end: string)
    ensures RemainingKeys(entries, snapshot, start, end, START_KEY) == SnapshotKeys(entries, snapshot, start, end)
  {
  }

  lemma FromACursor(entries: seq<Entry>, snapshot: nat, start: string, end: string, at: Key)
    requires at.corrected != ""
    ensures RemainingKeys(entries, snapshot, start, end, at)
              == Beyond(KeyLess, SnapshotKeys(entries, snapshot, start, end), at)
  {
    forall e: Entry ensures After(at, e) <==> KeyLess(at, KeyOf(e)) { AfterIsKeyOrder(at, e); }
    var a, b := RemainingKeys(entries, snapshot, start, end, at),
        Beyond(KeyLess, SnapshotKeys(entries, snapshot, start, end), at);
    forall k | k in b
      ensures k in a
    {
      var i :| 0 <= i < |entries| && entries[i].id <= snapshot && InRange(entries[i], start, end)
          && KeyOf(entries[i]) == k;
      assert Selected(entries[i], snapshot, start, end, at);
    }
  }

  /** The last key of every page but the final one can be read back from a cursor. */
  ghost predicate PageEndsFixed(sorted: seq<Key>, limit: nat)
    requires limit > 0
  {
    forall i {:trigger EndsPage(i, limit)} :: 0 < i < |sorted| && EndsPage(i, limit) ==> Fixed(sorted[i - 1].received)
  }

  /** `i` rows fill whole pages of `limit`. */
  predicate EndsPage(i: nat, limit: nat)
    requires limit > 0
  {
    i == 0 || (i >= limit && EndsPage(i - limit, limit))
  }

  /** What has been collected is a prefix of any ascending enumeration of the snapshot. */
  lemma {:induction false} CollectedIsPrefix(collected: seq<Key>, remaining: set<Key>, all: set<Key>, sorted: seq<Key>)
    requires Walked(KeyLess, collected, remaining, all) && Ascending(KeyLess, sorted) && Members(sorted) == all
    ensures collected <= sorted
  {
    if collected != [] {
      KeyLessIsStrictOrder();
      var n := |collected| - 1;
      var last := collected[n];
      forall i, k | 0 <= i < n && k in remaining + {last}
        ensures KeyLess(collected[i], k)
      {
      }
      assert Members(collected[..n]) + (remaining + {last}) == all by {
        assert collected == collected[..n] + [last];
      }
      CollectedIsPrefix(collected[..n], remaining + {last}, all, sorted);
      assert last in Members(collected) && last in sorted;
      NextInOrder(collected, remaining, all, sorted, n);
    }
  }

  lemma NextInOrder(collected: seq<Key>, remaining: set<Key>, all: set<Key>, sorted: seq<Key>, n: nat)
    requires StrictOrder(KeyLess) && Walked(KeyLess, collected, remaining, all) && Ascending(KeyLess, sorted)
             && Members(sorted) == all
    requires n == |collected| - 1 && collected[..n] <= sorted && collected[n] in sorted
    ensures n < |sorted| && sorted[n] == collected[n]
  {
    var last := collected[n];
    assert !KeyLess(last, last);
    forall i | 0 <= i < n
      ensures sorted[i] != last
    {
      assert sorted[i] == collected[..n][i] && KeyLess(collected[i], last);
    }
    var j :| 0 <= j < |sorted| && sorted[j] == last;
    forall i | 0 <= i < n
      ensures sorted[i] != sorted[n]
    {
      assert KeyLess(sorted[i], sorted[n]) && !KeyLess(sorted[n], sorted[n]);
    }
    assert sorted[n] in Members(sorted);
    assert collected[..n] == sorted[..n];
    assert !KeyLess(sorted[n], last);
    assert forall m :: n < m < |sorted| ==> KeyLess(sorted[n], sorted[m]);
  }

  /** A walk in progress: the keys collected, and the cursor to go on with unless it is complete. */
  ghost predicate InProgress(
      keys: seq<Key>, next: Option<Cursor>, snapshot: seq<Entry>, start: string, end: string, limit: nat)
  {
    var all := SnapshotKeys(snapshot, |snapshot|, start, end);
    if next == None then Ascending(KeyLess, keys) && Members(keys) == all
    else
      && keys != [] && limit > 0 && EndsPage(|keys|, limit)
      && next == Some(Cursor(start, end, |snapshot|, keys[|keys| - 1]))
      && Walked(KeyLess, keys, Beyond(KeyLess, all, next.value.at), all) && Beyond(KeyLess, all, next.value.at) != {}
      && next.value.at in all
  }

  lemma KeysOfConcat(a: seq<Entry>, b: seq<Entry>)
    ensures Keys(a + b) == Keys(a) + Keys(b)
  {
  }

  lemma {:induction false} PageAdvancesByKey(
      collected: seq<Key>, remaining: set<Key>, all: set<Key>, page: seq<Key>, limit: nat)
    requires Walked(KeyLess, collected, remaining, all) && IsPage(KeyLess, page, remaining, limit)
    ensures Ascending(KeyLess, collected + page)
    ensures |remaining| <= limit ==> Members(collected + page) == all
    ensures page != [] ==>
              var rest := Beyond(KeyLess, all, page[|page| - 1]);
              Walked(KeyLess, collected + page, rest, all) && |rest| == |remaining| - |page|
  {
    KeyLessIsStrictOrder();
    PageAdvances(KeyLess, collected, remaining, all, page, limit);
  }

  /** One page takes the walk forward. */
  lemma {:induction false} PageTakesForward(
      keys: seq<Key>, remaining: set<Key>, page: seq<Key>, snapshot: seq<Entry>, start: string, end: string,
      limit: nat)
    requires limit > 0 && EndsPage(|keys|, limit)
    requires Walked(KeyLess, keys, remaining, SnapshotKeys(snapshot, |snapshot|, start, end))
    requires IsPage(KeyLess, page, remaining, limit)
    ensures |remaining| <= limit ==> InProgress(keys + page, None, snapshot, start, end, limit)
    ensures |remaining| > limit ==>
              && |page| == limit
              && InProgress(keys + page, Some(Cursor(start, end, |snapshot|, page[limit - 1])), snapshot, start, end,
                  limit)
              && |Beyond(KeyLess, SnapshotKeys(snapshot, |snapshot|, start, end), page[limit - 1])|
                  == |remaining| - limit
  {
    var all := SnapshotKeys(snapshot, |snapshot|, start, end);
    PageAdvancesByKey(keys, remaining, all, page, limit);
    if |remaining| > limit {
      assert (keys + page)[|keys + page| - 1] == page[limit - 1];
    }
  }

  lemma {:induction false} NoPageEndsInside(n: nat, limit: nat, i: nat)
    requires limit > 0 && EndsPage(n, limit) && n < i < n + limit
    ensures !EndsPage(i, limit)
  {
    if n > 0 {
      NoPageEndsInside(n - limit, limit, i - limit);
    }
  }

  lemma WalkStarts(all: set<Key>)
    ensures Walked(KeyLess, [], all, all)
  {
  }

  lemma BeginsWalk(snapshot: seq<Entry>, r: PageResult, start: string, end: string, limit: nat)
    requires limit > 0 && r.Page? && Answers(r, snapshot, |snapshot|, start, end, START_KEY, limit)
    ensures InProgress(Keys(r.entries), r.next, snapshot, start, end, limit) && |r.entries| <= limit
  {
    var all := SnapshotKeys(snapshot, |snapshot|, start, end);
    FromTheStart(snapshot, |snapshot|, start, end);
    WalkStarts(all);
    PageTakesForward([], all, Keys(r.entries), snapshot, start, end, limit);
    assert [] + Keys(r.entries) == Keys(r.entries);
  }

  lemma ContinuesWalk(
      snapshot: seq<Entry>, entries: seq<Entry>, keys: seq<Key>, cursor: Cursor, r: PageResult, start: string,
      end: string, limit: nat)
    requires WellFormed(snapshot) && WellFormed(entries) && KeysKept(snapshot, entries)
    requires InProgress(keys, Some(cursor), snapshot, start, end, limit) && cursor.at.corrected != ""
    requires r.Page? && Answers(r, entries, |snapshot|, start, end, cursor.at, limit)
    ensures InProgress(keys + Keys(r.entries), r.next, snapshot, start, end, limit) && |r.entries| <= limit
    ensures r.next.Some? ==> LeftAt(snapshot, start, end, r.next.value) < LeftAt(snapshot, start, end, cursor)
  {
    var all := SnapshotKeys(snapshot, |snapshot|, start, end);
    SnapshotIsStable(snapshot, entries, start, end);
    FromACursor(entries, |snapshot|, start, end, cursor.at);
    PageTakesForward(keys, Beyond(KeyLess, all, cursor.at), Keys(r.entries), snapshot, start, end, limit);
  }

  lemma CursorIsReadable(snapshot: seq<Entry>, keys: seq<Key>, cursor: Cursor, start: string, end: string, limit: nat)
    requires WellFormed(snapshot) && TextLess(start, end) && InProgress(keys, Some(cursor), snapshot, start, end, limit)
    ensures cursor.rangeStart == start && cursor.rangeEnd == end && cursor.snapshotId == |snapshot|
            && cursor.at.corrected != ""
    ensures ValidCursor(cursor) <==> Fixed(cursor.at.received)
  {
  }

  /** The first page of a walk, and the snapshot it fixes. */
  method Begin(t: Timeline, start: string, end: string, limit: nat, sync: seq<Projection>)
    returns (collected: seq<Entry>, next: Option<Cursor>, ghost snapshot: seq<Entry>)
    requires t.Valid() && TextLess(start, end) && 1 <= limit <= t.maxPageSize
    requires forall i :: 0 <= i < |sync| ==> sync[i] in t.world && WellFormedItem(sync[i])
    modifies t
    ensures t.Valid() && snapshot == t.entries && KeysKept(old(t.entries), snapshot)
    ensures InProgress(Keys(collected), next, snapshot, start, end, limit) && |collected| <= limit
    ensures (DistinctSources(sync) ==> AllStored(snapshot, sync)) && OnlySynced(old(t.entries), snapshot, sync)
  {
    var page := t.QueryTimeline(start, end, None, limit, sync);
    snapshot := t.entries;
    BeginsWalk(snapshot, page, start, end, limit);
    collected, next := page.entries, page.next;
  }

  /** One request of the walk; a cursor whose received time lacks the fixed layout is refused. */
  method Continue(
      t: Timeline, start: string, end: string, limit: nat, cursor: Cursor, collected: seq<Entry>,
      ghost snapshot: seq<Entry>)
    returns (ok: bool, more: seq<Entry>, next: Option<Cursor>)
    requires t.Valid() && TextLess(start, end) && 1 <= limit <= t.maxPageSize
    requires WellFormed(snapshot) && KeysKept(snapshot, t.entries)
             && InProgress(Keys(collected), Some(cursor), snapshot, start, end, limit)
    modifies t
    ensures t.Valid() && t.entries == old(t.entries)
    ensures ok <==> Fixed(cursor.at.received)
    ensures !ok ==> more == collected && next == Some(cursor)
    ensures ok ==>
              InProgress(Keys(more), next, snapshot, start, end, limit) && Keys(collected) <= Keys(more)
              && |more| <= |collected| + limit
    ensures ok && next.Some? ==> LeftAt(snapshot, start, end, next.value) < LeftAt(snapshot, start, end, cursor)
  {
    CursorIsReadable(snapshot, Keys(collected), cursor, start, end, limit);
    var page := t.QueryTimeline(start, end, Some(cursor), limit, []);
    ok := page.Page?;
    more, next := collected, Some(cursor);
    if ok {
      ContinuesWalk(snapshot, t.entries, Keys(collected), cursor, page, start, end, limit);
      KeysOfConcat(collected, page.entries);
      more, next := collected + page.entries, page.next;
    }
  }

  ghost function LeftAt(snapshot: seq<Entry>, start: string, end: string, cursor: Cursor): nat {
    |Beyond(KeyLess, SnapshotKeys(snapshot, |snapshot|, start, end), cursor.at)|
  }

  /** All page ends before the last key collected are fixed. */
  ghost predicate SoFarFixed(keys: seq<Key>, limit: nat)
    requires limit > 0
  {
    forall i {:trigger EndsPage(i, limit)} :: 0 < i < |keys| && EndsPage(i, limit) ==> Fixed(keys[i - 1].received)
  }

  lemma NextPageIsFixed(keys: seq<Key>, more: seq<Key>, limit: nat)
    requires limit > 0 && keys != [] && EndsPage(|keys|, limit) && SoFarFixed(keys, limit)
             && Fixed(keys[|keys| - 1].received)
    requires keys <= more && |more| <= |keys| + limit
    ensures SoFarFixed(more, limit)
  {
    forall i | 0 < i < |more| && EndsPage(i, limit)
      ensures Fixed(more[i - 1].received)
    {
      if i > |keys| {
        NoPageEndsInside(|keys|, limit, i);
      }
    }
  }

  /** Whether the walk completed tells, for any ascending enumeration of the snapshot, whether its page ends are
      fixed. */
  lemma WalkVerdict(
      keys: seq<Key>, next: Option<Cursor>, snapshot: seq<Entry>, start: string, end: string, limit: nat,
      sorted: seq<Key>)
    requires limit > 0 && InProgress(keys, next, snapshot, start, end, limit) && SoFarFixed(keys, limit)
    requires next.Some? ==> !Fixed(next.value.at.received)
    requires Ascending(KeyLess, sorted) && Members(sorted) == SnapshotKeys(snapshot, |snapshot|, start, end)
    ensures next == None <==> PageEndsFixed(sorted, limit)
  {
    var all := SnapshotKeys(snapshot, |snapshot|, start, end);
    if next == None {
      assert Walked(KeyLess, keys, {}, all);
      CollectedIsPrefix(keys, {}, all, sorted);
      assert Walked(KeyLess, sorted, {}, all);
      CollectedIsPrefix(sorted, {}, all, keys);
    } else {
      var rest := Beyond(KeyLess, all, next.value.at);
      CollectedIsPrefix(keys, rest, all, sorted);
      if |sorted| == |keys| {
        assert sorted == keys;
        RestIsEmpty(keys, rest, all);
        assert false;
      }
      assert EndsPage(|keys|, limit) && sorted[|keys| - 1] == keys[|keys| - 1];
    }
  }

  lemma RestIsEmpty(keys: seq<Key>, rest: set<Key>, all: set<Key>)
    requires Walked(KeyLess, keys, rest, all) && Members(keys) == all
    ensures rest == {}
  {
  }

  lemma {:induction false} CommonPrefixDecides(p: string, a: string, b: string)
    ensures TextLess(p + a, p + b) <==> TextLess(a, b)
  {
    if p == "" {
      assert p + a == a && p + b == b;
    } else {
      assert (p + a)[1..] == p[1..] + a && (p + b)[1..] == p[1..] + b;
      CommonPrefixDecides(p[1..], a, b);
    }
  }

  lemma WalkVerdictAll(
      keys: seq<Key>, next: Option<Cursor>, snapshot: seq<Entry>, start: string, end: string, limit: nat)
    requires limit > 0 && InProgress(keys, next, snapshot, start, end, limit) && SoFarFixed(keys, limit)
    requires next.Some? ==> !Fixed(next.value.at.received)
    ensures Ascending(KeyLess, keys) && Members(keys) <= SnapshotKeys(snapshot, |snapshot|, start, end)
    ensures next == None <==> Members(keys) == SnapshotKeys(snapshot, |snapshot|, start, end)
    ensures forall sorted ::
              Ascending(KeyLess, sorted) && Members(sorted) == SnapshotKeys(snapshot, |snapshot|, start, end) ==>
              (next == None <==> PageEndsFixed(sorted, limit))
  {
    var all := SnapshotKeys(snapshot, |snapshot|, start, end);
    if next.Some? && Members(keys) == all {
      RestIsEmpty(keys, Beyond(KeyLess, all, next.value.at), all);
    }
    forall sorted | Ascending(KeyLess, sorted) && Members(sorted) == SnapshotKeys(snapshot, |snapshot|, start, end)
      ensures next == None <==> PageEndsFixed(sorted, limit)
    {
      WalkVerdict(keys, next, snapshot, start, end, limit, sorted);
    }
  }

  /** Another sync, then one request of the walk. */
  method SyncAndContinue(
      t: Timeline, start: string, end: string, limit: nat, cursor: Cursor, collected: seq<Entry>,
      arrivals: seq<Projection>, ghost snapshot: seq<Entry>)
    returns (ok: bool, more: seq<Entry>, next: Option<Cursor>)
    requires t.Valid() && TextLess(start, end) && 1 <= limit <= t.maxPageSize
    requires forall i :: 0 <= i < |arrivals| ==> arrivals[i] in t.world && WellFormedItem(arrivals[i])
    requires WellFormed(snapshot) && KeysKept(snapshot, t.entries)
             && InProgress(Keys(collected), Some(cursor), snapshot, start, end, limit)
    requires SoFarFixed(Keys(collected), limit)
    modifies t
    ensures t.Valid() && KeysKept(snapshot, t.entries)
    ensures ok <==> Fixed(cursor.at.received)
    ensures !ok ==> more == collected && next == Some(cursor)
    ensures ok ==> InProgress(Keys(more), next, snapshot, start, end, limit) && SoFarFixed(Keys(more), limit)
    ensures ok && next.Some? ==> LeftAt(snapshot, start, end, next.value) < LeftAt(snapshot, start, end, cursor)
  {
    ghost var before := t.entries;
    t.UpsertAll(arrivals);
    KeysKeptTransitive(snapshot, before, t.entries);
    ok, more, next := Continue(t, start, end, limit, cursor, collected, snapshot);
    if ok {
      NextPageIsFixed(Keys(collected), Keys(more), limit);
    }
  }

  /**
   Following cursors from an empty one, with any syncs between pages. When it completes, the walk has returned every
   snapshot row of the range once, in key order, and nothing newer; it completes exactly when the last row of every page
   but the final one has a received time in the fixed layout.
   */
  method Walk(
      t: Timeline, start: string, end: string, limit: nat, sync: seq<Projection>, arrivals: seq<seq<Projection>>)
    returns (ok: bool, collected: seq<Entry>, ghost snapshot: seq<Entry>)
    requires t.Valid() && TextLess(start, end) && 1 <= limit <= t.maxPageSize
    requires forall i :: 0 <= i < |sync| ==> sync[i] in t.world && WellFormedItem(sync[i])
    requires forall k, i :: 0 <= k < |arrivals| && 0 <= i < |arrivals[k]| ==>
               arrivals[k][i] in t.world && WellFormedItem(arrivals[k][i])
    modifies t
    ensures t.Valid() && KeysKept(old(t.entries), snapshot) && KeysKept(snapshot, t.entries)
    ensures Ascending(KeyLess, Keys(collected))
            && Members(Keys(collected)) <= SnapshotKeys(snapshot, |snapshot|, start, end)
    ensures ok <==> Members(Keys(collected)) == SnapshotKeys(snapshot, |snapshot|, start, end)
    ensures WellFormed(snapshot) && (DistinctSources(sync) ==> AllStored(snapshot, sync))
    ensures OnlySynced(old(t.entries), snapshot, sync)
    ensures forall sorted ::
              Ascending(KeyLess, sorted) && Members(sorted) == SnapshotKeys(snapshot, |snapshot|, start, end) ==>
              (ok <==> PageEndsFixed(sorted, limit))
  {
    var next;
    collected, next, snapshot := Begin(t, start, end, limit, sync);
    ok := true;
    var k := 0;
    while next.Some? && ok
      invariant t.Valid() && WellFormed(snapshot) && KeysKept(snapshot, t.entries)
      invariant InProgress(Keys(collected), next, snapshot, start, end, limit)
      invariant SoFarFixed(Keys(collected), limit)
      invariant !ok ==> next.Some? && !Fixed(next.value.at.received)
      decreases if next.Some? then LeftAt(snapshot, start, end, next.value) + 1 else 0, ok
    {
      ok, collected, next := SyncAndContinue(t, start, end, limit, next.value, collected, if k < |arrivals|
          then arrivals[k] else [], snapshot);
      k := k + 1;
    }
    WalkVerdictAll(Keys(collected), next, snapshot, start, end, limit);
  }

  /** A completed walk has a row for every synced item of the range: the same source with the same times. */
  lemma SyncedIsCollected(snapshot: seq<Entry>, collected: seq<Entry>, item: Projection, start: string, end: string)
    requires WellFormed(snapshot) && Stored(snapshot, item)
    requires !TextLess(item.corrected, start) && TextLess(item.corrected, end)
    requires Members(Keys(collected)) == SnapshotKeys(snapshot, |snapshot|, start, end)
    ensures exists e :: e in collected && SameRow(e.item, item)
  {
    var i :| 0 <= i < |snapshot| && snapshot[i].item == item;
    assert KeyOf(snapshot[i]) in SnapshotKeys(snapshot, |snapshot|, start, end);
    var n :| 0 <= n < |Keys(collected)| && Keys(collected)[n] == KeyOf(snapshot[i]);
    assert SameRow(collected[n].item, item);
  }

  predicate SameRow(a: Projection, b: Projection) {
    SameSource(a, b) && a.corrected == b.corrected && a.received == b.received
  }

  // ----- a walk that stops -----

  function Heartbeat(id: nat, corrected: string, received: string): Projection {
    Projection("heartbeat", id, corrected, received, "")
  }

  lemma TwoRows(snapshot: seq<Entry>, a: Projection, b: Projection, start: string, end: string)
    requires WellFormed(snapshot) && Stored(snapshot, a) && Stored(snapshot, b)
    requires forall i :: 0 <= i < |snapshot| ==> SameSource(snapshot[i].item, a) || SameSource(snapshot[i].item, b)
    requires a.corrected == b.corrected && TextLess(a.received, b.received) && !Fixed(a.received)
    requires !TextLess(a.corrected, start) && TextLess(a.corrected, end)
    ensures exists sorted ::
              Ascending(KeyLess, sorted) && Members(sorted) == SnapshotKeys(snapshot, |snapshot|, start, end)
              && !PageEndsFixed(sorted, 1)
  {
    var i :| 0 <= i < |snapshot| && snapshot[i].item == a;
    var j :| 0 <= j < |snapshot| && snapshot[j].item == b;
    TextTrichotomy(a.received, b.received);
    var sorted := [KeyOf(snapshot[i]), KeyOf(snapshot[j])];
    forall k | 0 <= k < |snapshot|
      ensures KeyOf(snapshot[k]) in sorted
    {
      var of := if SameSource(snapshot[k].item, a) then i else j;
      assert SameSource(snapshot[k].item, snapshot[of].item) && SameSource(snapshot[of].item, snapshot[k].item);
      assert k == of;
    }
    assert sorted[0] in sorted && sorted[1] in sorted;
    assert InRange(snapshot[i], start, end) && InRange(snapshot[j], start, end);
    assert Members(sorted) == SnapshotKeys(snapshot, |snapshot|, start, end);
    assert EndsPage(0, 1) && EndsPage(1, 1) && !Fixed(sorted[0].received);
  }

  /**
   Two heartbeats whose received times have fewer than nine digits after the second and differ in the last one: a walk
   in pages of one row stops after the first page, because its cursor cannot be read back.
   */
  method ShortFractionStopsWalk(start: string, end: string, corrected: string, p: string)
    returns (ok: bool, collected: seq<Entry>)
    requires TextLess(start, end) && |p| < 28
    requires Fixed(corrected) && !TextLess(corrected, start) && TextLess(corrected, end)
    ensures !ok
  {
    var a, b := Heartbeat(1, corrected, p + "1Z"), Heartbeat(2, corrected, p + "2Z");
    CommonPrefixDecides(p, "1Z", "2Z");
    assert "1Z"[0] < "2Z"[0];
    var t := new Timeline(1, {a, b});
    assert [a, b][0] == a && [a, b][1] == b;
    ghost var snapshot;
    ok, collected, snapshot := Walk(t, start, end, 1, [a, b], []);
    forall i | 0 <= i < |snapshot|
      ensures SameSource(snapshot[i].item, a) || SameSource(snapshot[i].item, b)
    {
      assert KeyOf(snapshot[i]) == KeyOf(t.entries[i]) && t.entries[i].item in t.world;
    }
    assert Stored(snapshot, [a, b][0]) && Stored(snapshot, [a, b][1]);
    TwoRows(snapshot, a, b, start, end);
  }
}
