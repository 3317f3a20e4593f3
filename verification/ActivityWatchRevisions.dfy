/**
 Duration revisions of imported events (internal/collectors/activitywatch.go). A stored event is immutable; when the
 source later reports a longer duration, a further row is appended under a key that names the duration.
 */
module ActivityWatchRevisions {
  import opened Options
  import opened RawEvents
  import opened ActivityWatchFetch

  /**
   The idempotency keys of one collector: the key forms are injective in their parts. A garbled key has the prefix of a
   revision of `id` and then something that is not a duration.
   */
  datatype Key =
    | Base(id: int)
    | Revision(id: int, duration: int)
    | Garbled(id: int, suffix: string)
    | Foreign(text: string)

  /** What a row says apart from its key; `source` is the bucket metadata and the clock error. */
  datatype Content = Content(stamp: Stamp, data: string, source: string, duration: int)

  type EventRow = Row<Key, Content>

  datatype Stored = Stored(id: nat, row: EventRow)

  datatype RevisionError = FamilyTooLong | ContentConflict | BaseFamilyInvalid | RevisionFamilyInvalid | BaseMissing

  datatype Decision = Append(key: Key, content: Content) | Refuse(error: RevisionError)

  const FAMILY_LIMIT := 1024

  function ContentOf(e: Event, source: string): Content {
    Content(e.stamp, e.data, source, e.duration)
  }

  predicate InFamily(key: Key, id: int) {
    !key.Foreign? && key.id == id
  }

  /** `QueryEventFamily` without its limit: the base row and its revisions, by row id. */
  function Family(rows: seq<EventRow>, id: int): (r: seq<Stored>)
    ensures forall k :: 0 <= k < |r| ==>
              1 <= r[k].id <= |rows| && rows[r[k].id - 1] == r[k].row && InFamily(r[k].row.key, id)
  {
    if |rows| == 0 then []
    else
      var before := Family(rows[..|rows| - 1], id);
      if InFamily(rows[|rows| - 1].key, id) then before + [Stored(|rows|, rows[|rows| - 1])] else before
  }

  predicate SameButDuration(a: Content, b: Content) {
    a == b.(duration := a.duration)
  }

  /** A base row, then revisions of strictly increasing duration above it, all describing the same event. */
  ghost predicate WellFormed(family: seq<Stored>, id: int) {
    && (|family| > 0 ==> family[0].row.key == Base(id) && 0 <= family[0].row.content.duration)
    && (forall k :: 0 < k < |family| ==> family[k].row.key == Revision(id, family[k].row.content.duration))
    && (forall j, k :: 0 <= j < k < |family| ==> family[j].row.content.duration < family[k].row.content.duration)
    && (forall k :: 0 < k < |family| ==> SameButDuration(family[k].row.content, family[0].row.content))
  }

  ghost predicate AllWellFormed(rows: seq<EventRow>) {
    forall id :: WellFormed(Family(rows, id), id)
  }

  function Maximum(family: seq<Stored>): int
    requires |family| > 0
  {
    family[|family| - 1].row.content.duration
  }

  // ----- the scan -----

  /** The first `n` rows are the base row and growing revisions of it, and say what `content` says but for the
      duration. */
  ghost predicate Growing(family: seq<Stored>, n: nat, id: int, existingId: nat, content: Content)
    requires n <= |family|
  {
    && (n > 0 ==> family[0].row.key == Base(id) && family[0].id == existingId)
    && (forall k :: 0 <= k < n ==> SameButDuration(content, family[k].row.content))
    && (forall k :: 0 < k < n ==>
        family[k].row.key == Revision(id, family[k].row.content.duration) && 0 <= family[k].row.content.duration)
    && (forall j, k :: 0 <= j < k < n ==> family[j].row.content.duration < family[k].row.content.duration)
  }

  /** The family can take the reported content as a revision. */
  ghost predicate Takes(family: seq<Stored>, id: int, existingId: nat, content: Content) {
    && |family| > 0 && Growing(family, |family|, id, existingId, content)
    && family[0].row.content.duration < content.duration && Maximum(family) <= content.duration
  }

  /** `activityWatchDurationRevisionCandidate`: check the family row by row and decide on the reported duration. */
  method DecideRevision(event: Event, source: string, family: seq<Stored>, existingId: nat) returns (r: Decision)
    requires 0 <= event.duration
    ensures r.Append? <==> Takes(family, event.id, existingId, ContentOf(event, source))
    ensures r.Append? ==> r.key == Revision(event.id, event.duration) && r.content == ContentOf(event, source)
    ensures WellFormed(family, event.id) && |family| > 0 && family[0].id == existingId && r.Refuse? ==>
              r.error == ContentConflict
  {
    var baseFound := false;
    var baseDuration := 0;
    var maximumDuration := -1;
    for k := 0 to |family|
      invariant Growing(family, k, event.id, existingId, ContentOf(event, source))
      invariant baseFound <==> k > 0
      invariant k > 0 ==> baseDuration == family[0].row.content.duration
      invariant -1 <= maximumDuration && (k == 0 ==> maximumDuration == -1)
      invariant k > 0 ==>
                  maximumDuration
                  == if family[k - 1].row.content.duration > -1 then family[k - 1].row.content.duration else -1
    {
      var stored := family[k].row;
      if !SameButDuration(ContentOf(event, source), stored.content) {
        return Refuse(ContentConflict);
      }
      var expectedRevisionKey := Revision(event.id, stored.content.duration);
      if stored.key == Base(event.id) {
        if baseFound || family[k].id != existingId {
          return Refuse(BaseFamilyInvalid);
        }
        baseFound := true;
        baseDuration := stored.content.duration;
      } else {
        if !baseFound || stored.key != expectedRevisionKey || stored.content.duration <= maximumDuration {
          return Refuse(RevisionFamilyInvalid);
        }
      }
      if stored.content.duration > maximumDuration {
        maximumDuration := stored.content.duration;
      }
    }
    if !baseFound {
      return Refuse(BaseMissing);
    }
    if event.duration <= baseDuration || event.duration < maximumDuration {
      return Refuse(ContentConflict);
    }
    return Append(Revision(event.id, event.duration), ContentOf(event, source));
  }

  // ----- families of a growing table -----

  lemma FamilyOfOneMore(rows: seq<EventRow>, row: EventRow, id: int)
    ensures Family(rows + [row], id) == Family(rows, id) + if InFamily(row.key, id) then [Stored(|rows| + 1, row)]
              else []
  {
  }

  /** The family is exactly the rows with a family key of `id`, each once, by ascending row id. */
  lemma {:induction false} FamilyIsExact(rows: seq<EventRow>, id: int)
    ensures forall s :: s in Family(rows, id) <==>
                          1 <= s.id <= |rows| && rows[s.id - 1] == s.row && InFamily(s.row.key, id)
    ensures forall j, k :: 0 <= j < k < |Family(rows, id)| ==> Family(rows, id)[j].id < Family(rows, id)[k].id
  {
    forall s: Stored | 1 <= s.id <= |rows| && rows[s.id - 1] == s.row && InFamily(s.row.key, id)
      ensures s in Family(rows, id)
    {
      InTable(rows, id, s.id - 1);
    }
    if |rows| > 0 {
      FamilyIsExact(rows[..|rows| - 1], id);
    }
  }

  /** Every row with a family key of `id` is in the family. */
  lemma {:induction false} InTable(rows: seq<EventRow>, id: int, i: nat)
    requires i < |rows| && InFamily(rows[i].key, id)
    ensures Stored(i + 1, rows[i]) in Family(rows, id)
  {
    assert rows == rows[..|rows| - 1] + [rows[|rows| - 1]];
    FamilyOfOneMore(rows[..|rows| - 1], rows[|rows| - 1], id);
    if i < |rows| - 1 {
      InTable(rows[..|rows| - 1], id, i);
    } else {
      var family := Family(rows, id);
      assert family[|family| - 1] == Stored(i + 1, rows[i]);
    }
  }

  /** A stored base key is the head of its family; with no base row the family is empty. */
  lemma BaseIsHead(rows: seq<EventRow>, id: int)
    requires AllWellFormed(rows) && UniqueKeys(rows)
    ensures match Lookup(rows, Base(id))
            case None => Family(rows, id) == []
            case Some(i) => Family(rows, id) != [] && Family(rows, id)[0] == Stored(i + 1, rows[i])
  {
    var family := Family(rows, id);
    assert WellFormed(family, id);
    match Lookup(rows, Base(id))
    case None =>
    case Some(i) =>
      InTable(rows, id, i);
      var k :| 0 <= k < |family| && family[k] == Stored(i + 1, rows[i]);
      assert k == 0;
  }

  /** A duration longer than every stored one, with the rest unchanged, extends its family. */
  lemma NewRevisionKeepsWellFormed(rows: seq<EventRow>, row: EventRow)
    requires AllWellFormed(rows)
    requires row.key.Revision? && row.key.duration == row.content.duration
    requires Family(rows, row.key.id) != []
    requires Maximum(Family(rows, row.key.id)) < row.content.duration
    requires SameButDuration(row.content, Family(rows, row.key.id)[0].row.content)
    ensures AllWellFormed(rows + [row])
  {
    forall id
      ensures WellFormed(Family(rows + [row], id), id)
    {
      FamilyOfOneMore(rows, row, id);
      var family := Family(rows, id);
      assert WellFormed(family, id);
      if id == row.key.id {
        ExtendedWellFormed(family, id, Stored(|rows| + 1, row));
      } else {
        assert Family(rows + [row], id) == family;
      }
    }
  }

  lemma ExtendedWellFormed(family: seq<Stored>, id: int, next: Stored)
    requires WellFormed(family, id) && family != []
    requires next.row.key == Revision(id, next.row.content.duration)
    requires Maximum(family) < next.row.content.duration
    requires SameButDuration(next.row.content, family[0].row.content)
    ensures WellFormed(family + [next], id)
  {
  }

  /** The row is in no family, begins one, or extends its own with a longer duration and otherwise the same content. */
  ghost predicate FitsFamily(rows: seq<EventRow>, row: EventRow) {
    match row.key
    case Foreign(_) => true
    case Base(id) => Family(rows, id) == [] && 0 <= row.content.duration
    case Garbled(_, _) => false
    case Revision(id, duration) =>
      && Family(rows, id) != [] && duration == row.content.duration && Maximum(Family(rows, id)) < duration
      && SameButDuration(row.content, Family(rows, id)[0].row.content)
  }

  /** Whoever writes it, a row keeps all families well formed if and only if it fits them. */
  lemma AddedRowFitsIff(rows: seq<EventRow>, row: EventRow)
    requires AllWellFormed(rows)
    ensures AllWellFormed(rows + [row]) <==> FitsFamily(rows, row)
  {
    if FitsFamily(rows, row) {
      forall id
        ensures WellFormed(Family(rows + [row], id), id)
      {
        FittingRowKeeps(rows, row, id);
      }
    } else {
      var id := row.key.id;
      FamilyOfOneMore(rows, row, id);
      UnfitRowBreaks(Family(rows, id), id, Stored(|rows| + 1, row));
      assert !WellFormed(Family(rows + [row], id), id);
    }
  }

  lemma FittingRowKeeps(rows: seq<EventRow>, row: EventRow, id: int)
    requires AllWellFormed(rows) && FitsFamily(rows, row)
    ensures WellFormed(Family(rows + [row], id), id)
  {
    FamilyOfOneMore(rows, row, id);
    assert WellFormed(Family(rows, id), id);
    if InFamily(row.key, id) && Family(rows, id) != [] {
      ExtendedWellFormed(Family(rows, id), id, Stored(|rows| + 1, row));
    }
  }

  lemma UnfitRowBreaks(family: seq<Stored>, id: int, next: Stored)
    requires WellFormed(family, id) && InFamily(next.row.key, id)
    requires family == [] ==> !(next.row.key == Base(id) && 0 <= next.row.content.duration)
    requires family != [] ==>
               !(next.row.key == Revision(id, next.row.content.duration) && Maximum(family) < next.row.content.duration
                 && SameButDuration(next.row.content, family[0].row.content))
    ensures !WellFormed(family + [next], id)
  {
    var longer, n := family + [next], |family|;
    assert longer[n] == next;
    if n > 0 {
      assert longer[n - 1] == family[n - 1] && longer[0] == family[0];
    }
  }

  /** A writer outside the importer can store a family key with other content; the event's later durations are
      refused. */
  lemma {:induction false} OtherWriterBreaksFamily(content: Content, other: Content, longer: Content)
    requires content.duration == 3 && other.duration != 9
    ensures var rows := [Row(Base(1), content, 0)];
            var more := rows + [Row(Revision(1, 9), other, 0)];
            && AllWellFormed(rows) && UniqueKeys(more) && !AllWellFormed(more)
            && !Takes(Family(more, 1), 1, 1, longer)
  {
    OneRow(content);
    var rows: seq<EventRow> := [Row(Base(1), content, 0)];
    AddedRowFitsIff(rows, Row(Revision(1, 9), other, 0));
    assert Family(rows + [Row(Revision(1, 9), other, 0)], 1)[1].row.content == other;
  }

  lemma {:induction false} OneRow(content: Content)
    requires 0 <= content.duration
    ensures AllWellFormed([Row(Base(1), content, 0)])
            && Family([Row(Base(1), content, 0)], 1) == [Stored(1, Row(Base(1), content, 0))]
  {
    var row: EventRow := Row(Base(1), content, 0);
    forall id
      ensures WellFormed(Family([row], id), id)
    {
      OneRowAt(row, id);
    }
  }

  lemma {:induction false} OneRowAt(row: EventRow, id: int)
    requires row.key == Base(1) && 0 <= row.content.duration
    ensures WellFormed(Family([row], id), id)
  {
  }

  // ----- what a report of an event does -----

  predicate IsBase(item: Prepared<Key, Content>) {
    item.Ready? ==> item.key.Base? && 0 <= item.content.duration
  }

  /** A batch of first reports keeps every family well formed. */
  lemma {:induction false} BaseBatchKeepsWellFormed(
      rows: seq<EventRow>, items: seq<Prepared<Key, Content>>, receivedAt: int)
    requires AllWellFormed(rows) && UniqueKeys(rows)
    requires forall k :: 0 <= k < |items| ==> IsBase(items[k])
    ensures AllWellFormed(AppendAll(rows, items, receivedAt).rows)
    ensures UniqueKeys(AppendAll(rows, items, receivedAt).rows)
  {
    AppendKeepsUnique(rows, items, receivedAt);
    if |items| > 0 {
      var n := |items| - 1;
      BaseBatchKeepsWellFormed(rows, items[..n], receivedAt);
      AppendKeepsUnique(rows, items[..n], receivedAt);
      var before := AppendAll(rows, items[..n], receivedAt).rows;
    }
  }

  /** The content differs from the base only by its duration, which is longer and no less than any so far. */
  predicate Extends(family: seq<Stored>, content: Content) {
    && family != [] && SameButDuration(content, family[0].row.content)
    && family[0].row.content.duration < content.duration && Maximum(family) <= content.duration
  }

  /** Is the reported content taken in: as a duplicate of the base, or through the family. */
  ghost predicate Absorbed(rows: seq<EventRow>, id: int, content: Content) {
    var family := Family(rows, id);
    || family == []
    || family[0].row.content == content
    || (Extends(family, content) && |family| <= FAMILY_LIMIT)
  }

  /**
   With the other content equal, a reported duration is absorbed exactly when it equals the base, or reaches the
   longest stored duration of a family that is still within the limit of the family query.
   */
  lemma AbsorbedIff(rows: seq<EventRow>, id: int, content: Content)
    requires AllWellFormed(rows)
    requires Family(rows, id) != []
    requires SameButDuration(content, Family(rows, id)[0].row.content)
    ensures Absorbed(rows, id, content) <==>
            || content.duration == Family(rows, id)[0].row.content.duration
            || (content.duration >= Maximum(Family(rows, id)) && |Family(rows, id)| <= FAMILY_LIMIT)
  {
  }

  function ContentLasting(duration: nat): Content {
    Content(Stamp("", 0), "{}", "", duration)
  }

  /** An event whose duration grew by one with every report, `n` times in all. */
  function ManyReports(n: nat): seq<EventRow> {
    if n == 0 then []
    else ManyReports(n - 1) + [Row(if n == 1 then Base(1) else Revision(1, n - 1), ContentLasting(n - 1), 0)]
  }

  /** The rows are one well-formed family of `n` reports, from 0 up to `n - 1`. */
  ghost predicate Grew(rows: seq<EventRow>, n: nat) {
    && |rows| == n > 0 && AllWellFormed(rows) && |Family(rows, 1)| == n
    && Family(rows, 1)[0].row.content == ContentLasting(0) && Maximum(Family(rows, 1)) == n - 1
  }

  lemma {:induction false} GrewMore(rows: seq<EventRow>, n: nat)
    requires Grew(rows, n)
    ensures Grew(rows + [Row(Revision(1, n), ContentLasting(n), 0)], n + 1)
  {
    var row: EventRow := Row(Revision(1, n), ContentLasting(n), 0);
    AddedRowFitsIff(rows, row);
    FamilyOfOneMore(rows, row, 1);
  }

  lemma {:induction false} ManyReportsGrow(n: nat)
    requires n > 0
    ensures Grew(ManyReports(n), n)
  {
    if n == 1 {
      OneRow(ContentLasting(0));
      assert ManyReports(1) == [Row(Base(1), ContentLasting(0), 0)];
    } else {
      ManyReportsGrow(n - 1);
      GrewMore(ManyReports(n - 1), n - 1);
    }
  }

  /** One report more than the family query returns: the next longer duration is refused, though its family is well
      formed. */
  lemma FullFamilyRefuses()
    ensures var rows := ManyReports(FAMILY_LIMIT + 1);
            && AllWellFormed(rows) && Maximum(Family(rows, 1)) < FAMILY_LIMIT + 1
            && SameButDuration(ContentLasting(FAMILY_LIMIT + 1), Family(rows, 1)[0].row.content)
            && !Absorbed(rows, 1, ContentLasting(FAMILY_LIMIT + 1))
  {
    ManyReportsGrow(FAMILY_LIMIT + 1);
  }

  /** The revision key of a duration is stored exactly when the family's longest duration is that one. */
  lemma RevisionStoredIff(rows: seq<EventRow>, id: int, duration: int)
    requires AllWellFormed(rows) && UniqueKeys(rows)
    requires Family(rows, id) != []
    requires Family(rows, id)[0].row.content.duration < duration && Maximum(Family(rows, id)) <= duration
    ensures match Lookup(rows, Revision(id, duration))
            case None => Maximum(Family(rows, id)) < duration
            case Some(i) =>
              Maximum(Family(rows, id)) == duration
              && rows[i] == Family(rows, id)[|Family(rows, id)| - 1].row
  {
    var family := Family(rows, id);
    assert WellFormed(family, id);
    var last := family[|family| - 1];
    match Lookup(rows, Revision(id, duration))
    case None =>
    case Some(i) =>
      InTable(rows, id, i);
      var k :| 0 <= k < |family| && family[k] == Stored(i + 1, rows[i]);
      OnlyLastIsMaximal(family, id, duration, k);
  }

  lemma OnlyLastIsMaximal(family: seq<Stored>, id: int, duration: int, k: nat)
    requires WellFormed(family, id) && k < |family| && family[k].row.key == Revision(id, duration)
             && Maximum(family) <= duration
    ensures k == |family| - 1 && Maximum(family) == duration
  {
  }

  /** A row of the family says exactly this. */
  ghost predicate TakenIn(rows: seq<EventRow>, id: int, content: Content) {
    exists i :: 0 <= i < |rows| && InFamily(rows[i].key, id) && rows[i].content == content
  }

  /** The families of all other events are as before. */
  ghost predicate OthersKept(id: int, before: seq<EventRow>, rows: seq<EventRow>) {
    forall other {:trigger Family(rows, other)} :: other != id ==> Family(rows, other) == Family(before, other)
  }

  /** A batch of first reports leaves a family alone that has its base, or that it holds no report for. */
  lemma {:induction false} BatchFamily(
      rows: seq<EventRow>, items: seq<Prepared<Key, Content>>, receivedAt: int, id: int)
    requires forall k :: 0 <= k < |items| ==> IsBase(items[k])
    requires Lookup(rows, Base(id)).Some? || KeyIsNew(items, |items|, Base(id))
    ensures Family(AppendAll(rows, items, receivedAt).rows, id) == Family(rows, id)
  {
    if |items| > 0 {
      var n := |items| - 1;
      BatchFamily(rows, items[..n], receivedAt, id);
      LastOutcome(rows, items, receivedAt);
      var before := AppendAll(rows, items[..n], receivedAt).rows;
      if items[n].Ready? && Lookup(before, items[n].key) == None {
        FamilyOfOneMore(before, Row(items[n].key, items[n].content, receivedAt), id);
      }
    }
  }

  /** A longest duration is either new, and appended, or already the last revision, and a duplicate. */
  lemma RevisionTakenIn(rows: seq<EventRow>, id: int, content: Content, receivedAt: int)
    requires AllWellFormed(rows) && UniqueKeys(rows)
    requires Extends(Family(rows, id), content)
    ensures var (after, outcome) := AppendOne(rows, Ready(Revision(id, content.duration), content), receivedAt);
            && AllWellFormed(after) && UniqueKeys(after) && (outcome.Accepted? || outcome.Duplicate?)
            && TakenIn(after, id, content) && OthersKept(id, rows, after)
  {
    var family := Family(rows, id);
    assert WellFormed(family, id);
    RevisionStoredIff(rows, id, content.duration);
    if Lookup(rows, Revision(id, content.duration)) == None {
      var row := Row(Revision(id, content.duration), content, receivedAt);
      NewRevisionKeepsWellFormed(rows, row);
      AppendOneKeepsUnique(rows, Ready(row.key, row.content), receivedAt);
      assert (rows + [row])[|rows|] == row;
      forall other | other != id
        ensures Family(rows + [row], other) == Family(rows, other)
      {
        FamilyOfOneMore(rows, row, other);
      }
    }
  }
}
