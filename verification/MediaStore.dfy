/**
 Media segments, the ingest log and their projections (internal/eventstore/media.go).
 Row ids are positions counted from one; a segment id of zero in an event stands for NULL.
 */
module MediaStore {
  import opened Faults
  import opened Options
  import opened MediaTypes
  import opened Projections

  datatype Segment = Segment(
    collector: string, sourceKey: string, path: Path, details: string, size: nat, digest: Digest, metadata: Metadata)

  datatype IngestEvent = IngestEvent(
    ingestKey: string, collector: string, sourceKey: string, sourceName: string, fingerprint: Fingerprint,
    status: Status, temporary: Option<Path>, segmentId: nat, errorCode: Code, occurredAt: int)

  /** One row of `media_ingest_events`: the event and the id its key was chained to. */
  datatype Chained = Chained(event: IngestEvent, predecessor: nat)

  /** The key of a segment state event: the accepted key names the source and its metadata. */
  datatype StateKey = AcceptedKey(collector: string, sourceKey: string, metadata: Metadata) | OtherKey(text: string)
  datatype StateEvent = StateEvent(key: StateKey, status: string, occurredAt: int)

  datatype ClaimStatus = NoClaim | Duplicate | Conflict | NewSegment
  datatype Claim = Claim(
    status: ClaimStatus, segmentId: nat, path: Option<Path>, digest: Option<Digest>, sidecar: Option<Sidecar>)

  const NO_CLAIM := Claim(NoClaim, 0, None, None, None)

  type IngestLog = seq<LogRow<string, Chained>>
  type StateLog = seq<LogRow<nat, StateEvent>>

  /** The tables of one database state. */
  datatype Tables = Tables(segments: seq<Segment>, ingest: IngestLog, states: StateLog)

  // ----- claims -----

  /** The source identity names segment `id`: its own row does, or an ingest event that carries the id. */
  predicate Bound(t: Tables, collector: string, sourceKey: string, id: nat) {
    && 1 <= id <= |t.segments|
    && ((t.segments[id - 1].collector == collector && t.segments[id - 1].sourceKey == sourceKey)
        || exists i :: 0 <= i < |t.ingest| && CarriesId(t.ingest[i].value.event, collector, sourceKey, id))
  }

  predicate CarriesId(e: IngestEvent, collector: string, sourceKey: string, id: nat) {
    e.segmentId == id && e.collector == collector && e.sourceKey == sourceKey
  }

  /** The smallest bound id among the first `n`; zero when there is none. */
  function BoundId(t: Tables, collector: string, sourceKey: string, n: nat): (id: nat)
    requires n <= |t.segments|
    ensures id <= n
    ensures id > 0 ==> Bound(t, collector, sourceKey, id)
    ensures forall k :: 1 <= k <= n && Bound(t, collector, sourceKey, k) ==> 1 <= id <= k
  {
    if n == 0 then 0
    else
      var earlier := BoundId(t, collector, sourceKey, n - 1);
      if earlier > 0 then earlier else if Bound(t, collector, sourceKey, n) then n else 0
  }

  predicate HasDigest(segments: seq<Segment>, k: nat, digest: Digest)
    requires k < |segments|
  {
    segments[k].digest == digest
  }

  /** The smallest segment with this digest among the first `n`; zero when there is none. */
  function DigestId(segments: seq<Segment>, digest: Digest, n: nat): (id: nat)
    requires n <= |segments|
    ensures id <= n
    ensures id > 0 ==> segments[id - 1].digest == digest
    ensures forall k {:trigger HasDigest(segments, k, digest)} :: 0 <= k < n && HasDigest(segments, k, digest) ==>
              1 <= id <= k + 1
  {
    if n == 0 then 0
    else
      var earlier := DigestId(segments, digest, n - 1);
      if earlier > 0 then earlier else if HasDigest(segments, n - 1, digest) then n else 0
  }

  function ClaimOn(t: Tables, id: nat, collector: string, sourceKey: string, agrees: bool): Claim
    requires 1 <= id <= |t.segments|
  {
    var s := t.segments[id - 1];
    Claim(if agrees then Duplicate else Conflict, id, Some(s.path), Some(s.digest),
        Some(Sidecar(collector, sourceKey, s.details, s.size, s.digest)))
  }

  /** `resolveMediaClaim`: the source identity first, then the content. */
  function Resolve(t: Tables, collector: string, sourceKey: string, digest: Digest, metadata: Metadata): Claim {
    var bound := BoundId(t, collector, sourceKey, |t.segments|);
    if bound > 0 then
      var s := t.segments[bound - 1];
      ClaimOn(t, bound, collector, sourceKey, s.digest == digest && s.metadata == metadata)
    else
      var same := DigestId(t.segments, digest, |t.segments|);
      if same == 0 then NO_CLAIM
      else
        var s := t.segments[same - 1];
        ClaimOn(t, same, s.collector, s.sourceKey, s.metadata == metadata)
  }

  // ----- the ingest log -----

  predicate SameFields(a: IngestEvent, b: IngestEvent) {
    a == b.(occurredAt := a.occurredAt)
  }

  /** The unique event key: the fields the manager hashes, chained to the predecessor. */
  predicate SameEventKey(row: Chained, e: IngestEvent, predecessor: nat) {
    && row.predecessor == predecessor
    && row.event.ingestKey == e.ingestKey && row.event.fingerprint == e.fingerprint && row.event.status == e.status
    && row.event.errorCode == e.errorCode && row.event.temporary == e.temporary
  }

  /** The id of the first row with this event key among the first `n`; zero when there is none. */
  function EventKeyId(log: IngestLog, e: IngestEvent, predecessor: nat, n: nat): (id: nat)
    requires n <= |log|
    ensures id <= n
    ensures id > 0 ==> SameEventKey(log[id - 1].value, e, predecessor)
    ensures id == 0 ==> forall i :: 0 <= i < n ==> !SameEventKey(log[i].value, e, predecessor)
  {
    if n == 0 then 0
    else
      var earlier := EventKeyId(log, e, predecessor, n - 1);
      if earlier > 0 then earlier else if SameEventKey(log[n - 1].value, e, predecessor) then n else 0
  }

  /** `insertMediaIngestEvent`: a repetition keeps the previous row, anything else is chained to it. */
  function InsertEvent(log: IngestLog, e: IngestEvent): (r: (IngestLog, nat))
    ensures log <= r.0 && 1 <= r.1 <= |r.0|
  {
    var previous := Latest(log, e.ingestKey);
    if previous > 0 && (e.status == Discovered || SameFields(log[previous - 1].value.event, e)) then (log, previous)
    else
      var existing := EventKeyId(log, e, previous, |log|);
      if existing > 0 then (log, existing)
      else (log + [LogRow(e.ingestKey, Chained(e, previous))], |log| + 1)
  }

  /** Each key's rows form a chain: every row follows its key's latest earlier row, differs from it, and only a
      first row is `discovered`. */
  ghost predicate ChainedLog(log: IngestLog) {
    forall i :: 0 <= i < |log| ==> LinkedRow(log, i)
  }

  ghost predicate LinkedRow(log: IngestLog, i: nat)
    requires i < |log|
  {
    var row := log[i];
    && row.key == row.value.event.ingestKey
    && row.value.predecessor == Latest(log[..i], row.key)
    && (row.value.predecessor > 0 ==>
          row.value.event.status != Discovered
              && !SameFields(log[row.value.predecessor - 1].value.event, row.value.event))
  }

  lemma LinkedRowKept(log: IngestLog, row: LogRow<string, Chained>, i: nat)
    requires i < |log| && LinkedRow(log, i)
    ensures LinkedRow(log + [row], i)
  {
    assert (log + [row])[..i] == log[..i];
  }

  /** The unique key of a new event is never taken: a row with that predecessor would be the later one. */
  lemma EventKeyIsFree(log: IngestLog, e: IngestEvent)
    requires ChainedLog(log)
    ensures EventKeyId(log, e, Latest(log, e.ingestKey), |log|) == 0
  {
    var previous := Latest(log, e.ingestKey);
    forall i | 0 <= i < |log|
      ensures !SameEventKey(log[i].value, e, previous)
    {
      assert LinkedRow(log, i);
    }
  }

  /** Every insertion keeps the log a chain, and the row it names says what the event says. */
  lemma InsertKeepsChain(log: IngestLog, e: IngestEvent)
    requires ChainedLog(log)
    ensures ChainedLog(InsertEvent(log, e).0)
    ensures var (after, id) := InsertEvent(log, e);
            after[id - 1].key == e.ingestKey && id == Latest(after, e.ingestKey)
    ensures var (after, id) := InsertEvent(log, e);
            SameFields(after[id - 1].value.event, e)
                || (after == log && e.status == Discovered && Latest(log, e.ingestKey) > 0)
  {
    EventKeyIsFree(log, e);
    var previous := Latest(log, e.ingestKey);
    var (after, id) := InsertEvent(log, e);
    if after != log {
      var row := LogRow(e.ingestKey, Chained(e, previous));
      assert after == log + [row] && after[..|log|] == log;
      forall i | 0 <= i < |after|
        ensures LinkedRow(after, i)
      {
        if i < |log| {
          LinkedRowKept(log, row, i);
        }
      }
    }
  }

  // ----- acceptance -----

  datatype AcceptResult =
    | Applied(claim: Claim, tables: Tables, ingestId: nat, stateId: nat)
    | Refused(claim: Claim)
    | Violation

  predicate HasIdentityRow(segments: seq<Segment>, collector: string, sourceKey: string) {
    exists i :: 0 <= i < |segments| && segments[i].collector == collector && segments[i].sourceKey == sourceKey
  }

  predicate HasStateKey(states: StateLog, key: StateKey) {
    exists i :: 0 <= i < |states| && states[i].value.key == key
  }

  /** The transaction of `AcceptMedia`; the unique constraints of the tables can abort it. */
  function Accept(t: Tables, s: Segment, e: IngestEvent, receivedAt: int): AcceptResult {
    var claim := Resolve(t, s.collector, s.sourceKey, s.digest, s.metadata);
    var stateKey := AcceptedKey(s.collector, s.sourceKey, s.metadata);
    if claim.status == Conflict then Refused(claim)
    else if claim.status == Duplicate then
      var (log, ingestId) := InsertEvent(t.ingest, e.(status := Accepted, segmentId := claim.segmentId));
      Applied(claim, t.(ingest := log), ingestId, Latest(t.states, claim.segmentId))
    else if HasIdentityRow(t.segments, s.collector, s.sourceKey) || HasStateKey(t.states, stateKey) then Violation
    else
      var id := |t.segments| + 1;
      var (log, ingestId) := InsertEvent(t.ingest, e.(status := Accepted, segmentId := id));
      var states := t.states + [LogRow(id, StateEvent(stateKey, "accepted", receivedAt))];
      Applied(Claim(NewSegment, id, Some(s.path), Some(s.digest), None), Tables(t.segments + [s], log, states),
          ingestId, |states|)
  }

  predicate SameDigest(segments: seq<Segment>, i: nat, j: nat)
    requires i < |segments| && j < |segments|
  {
    segments[i].digest == segments[j].digest
  }

  /** Content and identities are claimed at most once, references resolve, and the logs are in order. */
  ghost predicate Consistent(t: Tables) {
    && (forall i, j {:trigger SameDigest(t.segments, i, j)} :: 0 <= i < j < |t.segments| ==>
        !SameDigest(t.segments, i, j))
    && (forall c, k, i, j :: Bound(t, c, k, i) && Bound(t, c, k, j) ==> i == j)
    && (forall i :: 0 <= i < |t.ingest| ==> t.ingest[i].value.event.segmentId <= |t.segments|)
    && (forall i :: 0 <= i < |t.states| && t.states[i].value.key.AcceptedKey? ==>
          HasIdentityRow(t.segments, t.states[i].value.key.collector, t.states[i].value.key.sourceKey))
    && (forall id {:trigger Latest(t.states, id)} :: 1 <= id <= |t.segments| ==> Latest(t.states, id) > 0)
    && ChainedLog(t.ingest)
  }

  /** Each table of `after` extends the table of `before`. */
  ghost predicate Extends(before: Tables, after: Tables) {
    before.segments <= after.segments && before.ingest <= after.ingest && before.states <= after.states
  }

  lemma BoundKept(t: Tables, more: Tables, c: string, k: string, id: nat)
    requires Extends(t, more) && Bound(t, c, k, id)
    ensures Bound(more, c, k, id)
  {
  }

  /** What one more ingest event can bind. */
  lemma BoundAfterEvent(t: Tables, e: IngestEvent, c: string, k: string, id: nat)
    requires Bound(t.(ingest := InsertEvent(t.ingest, e).0), c, k, id)
    ensures Bound(t, c, k, id) || CarriesId(e, c, k, id)
  {
  }

  /** An event may carry only the segment its identity already has, or any one segment while it has none. */
  predicate MayCarry(t: Tables, e: IngestEvent) {
    e.segmentId > 0 ==>
      && e.segmentId <= |t.segments|
      && var bound := BoundId(t, e.collector, e.sourceKey, |t.segments|); bound == 0 || bound == e.segmentId
  }

  /** A resolved claim hands out exactly such segment ids. */
  lemma ResolvedMayCarry(t: Tables, e: IngestEvent, digest: Digest, metadata: Metadata)
    requires var claim := Resolve(t, e.collector, e.sourceKey, digest, metadata);
             claim.status == Duplicate && claim.segmentId == e.segmentId
    ensures MayCarry(t, e)
  {
  }

  lemma EventKeepsConsistent(t: Tables, e: IngestEvent)
    requires Consistent(t) && MayCarry(t, e)
    ensures Consistent(t.(ingest := InsertEvent(t.ingest, e).0))
  {
    var t' := t.(ingest := InsertEvent(t.ingest, e).0);
    InsertKeepsChain(t.ingest, e);
    forall c, k, i, j | Bound(t', c, k, i) && Bound(t', c, k, j)
      ensures i == j
    {
      BoundAfterEvent(t, e, c, k, i);
      BoundAfterEvent(t, e, c, k, j);
      assert CarriesId(e, c, k, i) && Bound(t, c, k, j) ==> BoundId(t, c, k, |t.segments|) > 0;
      assert CarriesId(e, c, k, j) && Bound(t, c, k, i) ==> BoundId(t, c, k, |t.segments|) > 0;
    }
  }

  /** Only ingest rows that carry no segment were added. */
  ghost predicate PlainGrowth(t: Tables, u: Tables) {
    && Extends(t, u) && u.segments == t.segments && u.states == t.states
    && forall i :: |t.ingest| <= i < |u.ingest| ==> u.ingest[i].value.event.segmentId == 0
  }

  /** Rows without a segment bind nothing: every claim is answered as before. */
  lemma PlainGrowthKeepsClaim(t: Tables, u: Tables, c: string, k: string, digest: Digest, metadata: Metadata)
    requires PlainGrowth(t, u)
    ensures Resolve(u, c, k, digest, metadata) == Resolve(t, c, k, digest, metadata)
  {
    SameBoundId(t, u, c, k, |t.segments|);
  }

  lemma {:induction false} SameBoundId(t: Tables, u: Tables, c: string, k: string, n: nat)
    requires PlainGrowth(t, u) && n <= |t.segments|
    ensures BoundId(u, c, k, n) == BoundId(t, c, k, n)
  {
    if n > 0 {
      SameBoundId(t, u, c, k, n - 1);
      if Bound(t, c, k, n) { BoundKept(t, u, c, k, n); }
      if i :| 0 <= i < |u.ingest| && CarriesId(u.ingest[i].value.event, c, k, n) {
        assert u.ingest[i] == t.ingest[i];
        assert CarriesId(t.ingest[i].value.event, c, k, n);
      }
    }
  }

  lemma NewSegmentKeepsConsistent(t: Tables, s: Segment, receivedAt: int)
    requires Consistent(t)
    requires Resolve(t, s.collector, s.sourceKey, s.digest, s.metadata) == NO_CLAIM
    ensures Consistent(WithSegment(t, s, receivedAt))
            && Bound(WithSegment(t, s, receivedAt), s.collector, s.sourceKey, |t.segments| + 1)
  {
    var id := |t.segments| + 1;
    var t' := WithSegment(t, s, receivedAt);
    var states := t'.states;
    assert t'.segments[id - 1] == s;
    assert BoundId(t, s.collector, s.sourceKey, |t.segments|) == 0 && DigestId(t.segments, s.digest, |t.segments|) == 0;
    forall c, k, i | Bound(t', c, k, i)
      ensures Bound(t, c, k, i) || (i == id && c == s.collector && k == s.sourceKey)
    {
    }
    forall i | 0 <= i < |states| && states[i].value.key.AcceptedKey?
      ensures HasIdentityRow(t'.segments, states[i].value.key.collector, states[i].value.key.sourceKey)
    {
      var key := states[i].value.key;
      if i < |t.states| {
        var j :| 0 <= j < |t.segments| && t.segments[j].collector == key.collector
            && t.segments[j].sourceKey == key.sourceKey;
        assert t'.segments[j] == t.segments[j];
      }
    }
    forall i, j | 0 <= i < j < |t'.segments|
      ensures !SameDigest(t'.segments, i, j)
    {
      if j < |t.segments| {
        assert !SameDigest(t.segments, i, j);
      } else {
        DigestIsNew(t.segments, s.digest, i);
      }
    }
    forall n | 1 <= n <= |t'.segments|
      ensures Latest(states, n) > 0
    {
      assert states[..|states| - 1] == t.states;
      assert n < id ==> Latest(t.states, n) > 0;
    }
  }

  lemma DigestIsNew(segments: seq<Segment>, digest: Digest, i: nat)
    requires DigestId(segments, digest, |segments|) == 0 && i < |segments|
    ensures segments[i].digest != digest
  {
    var _ := HasDigest(segments, i, digest);
  }

  lemma DigestIsOnly(t: Tables, digest: Digest, i: nat)
    requires Consistent(t) && i < |t.segments| && t.segments[i].digest == digest
    ensures DigestId(t.segments, digest, |t.segments|) == i + 1
  {
    assert HasDigest(t.segments, i, digest);
    var same := DigestId(t.segments, digest, |t.segments|);
    assert SameDigest(t.segments, same - 1, i);
  }

  /** What a successful acceptance of `s` leaves behind. */
  ghost predicate Settled(t: Tables, s: Segment, r: AcceptResult) {
    && r.Applied?
    && Consistent(r.tables) && Extends(t, r.tables)
    && 1 <= r.claim.segmentId <= |r.tables.segments|
    && Bound(r.tables, s.collector, s.sourceKey, r.claim.segmentId)
    && r.tables.segments[r.claim.segmentId - 1].digest == s.digest
    && r.tables.segments[r.claim.segmentId - 1].metadata == s.metadata
    && r.stateId > 0
  }

  lemma AcceptDuplicate(t: Tables, s: Segment, e: IngestEvent, receivedAt: int)
    requires Consistent(t) && e.collector == s.collector && e.sourceKey == s.sourceKey
    requires Resolve(t, s.collector, s.sourceKey, s.digest, s.metadata).status == Duplicate
    ensures Settled(t, s, Accept(t, s, e, receivedAt))
  {
    var claim := Resolve(t, s.collector, s.sourceKey, s.digest, s.metadata);
    var e' := e.(status := Accepted, segmentId := claim.segmentId);
    EventKeepsConsistent(t, e');
    BoundByEvent(t, e');
    assert Latest(t.states, claim.segmentId) > 0;
  }

  lemma UnboundHasNoRow(t: Tables, c: string, k: string)
    ensures HasIdentityRow(t.segments, c, k) ==> BoundId(t, c, k, |t.segments|) > 0
  {
    if i :| 0 <= i < |t.segments| && t.segments[i].collector == c && t.segments[i].sourceKey == k {
      assert Bound(t, c, k, i + 1);
    }
  }

  /** The tables with the new segment and its state row, before the ingest event. */
  function WithSegment(t: Tables, s: Segment, at: int): Tables {
    Tables(t.segments + [s], t.ingest,
           t.states + [LogRow(|t.segments| + 1,
               StateEvent(AcceptedKey(s.collector, s.sourceKey, s.metadata), "accepted", at))])
  }

  lemma AcceptNewResult(t: Tables, s: Segment, e: IngestEvent, receivedAt: int)
    requires Consistent(t)
    requires Resolve(t, s.collector, s.sourceKey, s.digest, s.metadata).status == NoClaim
    ensures var r := Accept(t, s, e, receivedAt);
            var t' := WithSegment(t, s, receivedAt);
            && r.Applied? && r.claim.segmentId == |t.segments| + 1 && r.stateId > 0
            && r.tables == t'.(ingest := InsertEvent(t.ingest, e.(status := Accepted, segmentId := |t.segments| + 1)).0)
  {
    UnboundHasNoRow(t, s.collector, s.sourceKey);
  }

  lemma AcceptNew(t: Tables, s: Segment, e: IngestEvent, receivedAt: int)
    requires Consistent(t) && e.collector == s.collector && e.sourceKey == s.sourceKey
    requires Resolve(t, s.collector, s.sourceKey, s.digest, s.metadata).status == NoClaim
    ensures Settled(t, s, Accept(t, s, e, receivedAt))
  {
    var id := |t.segments| + 1;
    var t' := WithSegment(t, s, receivedAt);
    NewSegmentKeepsConsistent(t, s, receivedAt);
    var e' := e.(status := Accepted, segmentId := id);
    EventKeepsConsistent(t', e');
    BoundKept(t', t'.(ingest := InsertEvent(t.ingest, e').0), s.collector, s.sourceKey, id);
    AcceptNewResult(t, s, e, receivedAt);
  }

  /** An acceptance logs its event with the segment it answers with. */
  lemma AcceptInserts(t: Tables, s: Segment, e: IngestEvent, at: int)
    requires Consistent(t) && e.status == Accepted
             && Resolve(t, s.collector, s.sourceKey, s.digest, s.metadata).status != Conflict
    ensures var claim := Resolve(t, s.collector, s.sourceKey, s.digest, s.metadata);
            var r := Accept(t, s, e, at);
            && r.Applied? && 1 <= r.claim.segmentId <= |r.tables.segments|
            && r.tables.ingest == InsertEvent(t.ingest, e.(segmentId := r.claim.segmentId)).0
            && Some(r.tables.segments[r.claim.segmentId - 1].path) ==
                if claim.status == Duplicate then claim.path else Some(s.path)
  {
    var claim := Resolve(t, s.collector, s.sourceKey, s.digest, s.metadata);
    if claim.status == NoClaim {
      AcceptNewResult(t, s, e, at);
    }
  }

  /**
   Acceptance never trips a unique constraint and keeps every claim unique. Afterwards the source identity is bound to
   the returned segment, whose content is the accepted one; only a claim that nobody holds adds a segment.
   */
  lemma AcceptKeepsConsistent(t: Tables, s: Segment, e: IngestEvent, receivedAt: int)
    requires Consistent(t)
    requires e.collector == s.collector && e.sourceKey == s.sourceKey
    ensures var claim := Resolve(t, s.collector, s.sourceKey, s.digest, s.metadata);
            var r := Accept(t, s, e, receivedAt);
            if claim.status == Conflict then r == Refused(claim)
            else
              Settled(t, s, r)
              && r.tables.segments == if claim.status == Duplicate then t.segments else t.segments + [s]
  {
    var claim := Resolve(t, s.collector, s.sourceKey, s.digest, s.metadata);
    if claim.status == Duplicate {
      AcceptDuplicate(t, s, e, receivedAt);
    } else if claim.status == NoClaim {
      AcceptNew(t, s, e, receivedAt);
    }
  }

  lemma BoundByEvent(t: Tables, e: IngestEvent)
    requires ChainedLog(t.ingest)
    requires 1 <= e.segmentId <= |t.segments| && e.status != Discovered
    ensures Bound(t.(ingest := InsertEvent(t.ingest, e).0), e.collector, e.sourceKey, e.segmentId)
  {
    InsertKeepsChain(t.ingest, e);
    var (log, id) := InsertEvent(t.ingest, e);
    assert CarriesId(log[id - 1].value.event, e.collector, e.sourceKey, e.segmentId);
  }

  /** Accepting the same source again, at any later time, answers with the same segment. */
  lemma RepeatedAcceptSameSegment(t: Tables, s: Segment, e: IngestEvent, receivedAt: int, later: Tables)
    requires Consistent(t) && Consistent(later)
    requires e.collector == s.collector && e.sourceKey == s.sourceKey
    requires Accept(t, s, e, receivedAt).Applied? && Extends(Accept(t, s, e, receivedAt).tables, later)
    ensures var claim := Resolve(later, s.collector, s.sourceKey, s.digest, s.metadata);
            claim.status == Duplicate && claim.segmentId == Accept(t, s, e, receivedAt).claim.segmentId
  {
    AcceptKeepsConsistent(t, s, e, receivedAt);
    var id := Accept(t, s, e, receivedAt).claim.segmentId;
    BoundKept(Accept(t, s, e, receivedAt).tables, later, s.collector, s.sourceKey, id);
    assert BoundId(later, s.collector, s.sourceKey, |later.segments|) == id;
  }

  /** The same content under other metadata, or a known source with other content or metadata, is a conflict. */
  lemma ConflictIff(t: Tables, c: string, k: string, digest: Digest, metadata: Metadata)
    requires Consistent(t)
    ensures Resolve(t, c, k, digest, metadata).status == Conflict <==>
            || (exists id ::
                  Bound(t, c, k, id)
                  && !(t.segments[id - 1].digest == digest && t.segments[id - 1].metadata == metadata))
            || ((forall id :: !Bound(t, c, k, id))
                && exists i :: 0 <= i < |t.segments| && t.segments[i].digest == digest
                    && t.segments[i].metadata != metadata)
  {
    var bound := BoundId(t, c, k, |t.segments|);
    if bound > 0 {
      assert Bound(t, c, k, bound);
      assert forall id :: Bound(t, c, k, id) ==> id == bound;
    } else {
      assert forall id :: !Bound(t, c, k, id);
      forall i | 0 <= i < |t.segments| && t.segments[i].digest == digest
        ensures DigestId(t.segments, digest, |t.segments|) == i + 1
      {
        DigestIsOnly(t, digest, i);
      }
    }
  }

  // ----- the store -----

  lemma InsertAppendsOne(log: IngestLog, e: IngestEvent)
    requires ChainedLog(log)
    ensures var (after, id) := InsertEvent(log, e); AppendsOne(log, after, id)
  {
    InsertKeepsChain(log, e);
  }

  lemma AcceptAppendsOne(t: Tables, s: Segment, e: IngestEvent, at: int)
    requires ChainedLog(t.ingest)
    requires var r := Accept(t, s, e, at); r.Applied? && r.stateId > 0
    ensures var r := Accept(t, s, e, at);
            AppendsOne(t.ingest, r.tables.ingest, r.ingestId) && AppendsOne(t.states, r.tables.states, r.stateId)
  {
    var claim := Resolve(t, s.collector, s.sourceKey, s.digest, s.metadata);
    var id := if claim.status == Duplicate then claim.segmentId else |t.segments| + 1;
    InsertAppendsOne(t.ingest, e.(status := Accepted, segmentId := id));
  }

  /** What inserting an event does to the log and its projection. */
  lemma EventStep(t: Tables, status: map<string, Entry<Chained>>, e: IngestEvent)
    requires Consistent(t) && Grounded(t.ingest, status) && MayCarry(t, e)
    ensures var (log, id) := InsertEvent(t.ingest, e);
            && Consistent(t.(ingest := log)) && Grounded(log, status)
            && (status == Rebuild(t.ingest) ==> Apply(log, status, id) == Rebuild(log))
  {
    var (log, id) := InsertEvent(t.ingest, e);
    EventKeepsConsistent(t, e);
    InsertAppendsOne(t.ingest, e);
    ProjectionStep(t.ingest, log, status, id);
  }

  /** What an acceptance does to the logs and their projections. */
  lemma AcceptStep(
      t: Tables, ingest: map<string, Entry<Chained>>, states: map<nat, Entry<StateEvent>>, s: Segment, e: IngestEvent,
      at: int)
    requires ChainedLog(t.ingest) && Grounded(t.ingest, ingest) && Grounded(t.states, states)
    requires var r := Accept(t, s, e, at); r.Applied? && r.stateId > 0
    ensures var r := Accept(t, s, e, at);
            && Grounded(r.tables.ingest, ingest) && Grounded(r.tables.states, states)
            && (ingest == Rebuild(t.ingest) ==> Apply(r.tables.ingest, ingest, r.ingestId) == Rebuild(r.tables.ingest))
            && (states == Rebuild(t.states) ==> Apply(r.tables.states, states, r.stateId) == Rebuild(r.tables.states))
  {
    AcceptAppendsOne(t, s, e, at);
    var r := Accept(t, s, e, at);
    ProjectionStep(t.ingest, r.tables.ingest, ingest, r.ingestId);
    ProjectionStep(t.states, r.tables.states, states, r.stateId);
  }

  class Store {
    var tables: Tables
    var ingestStatus: map<string, Entry<Chained>>
    var segmentStatus: map<nat, Entry<StateEvent>>
    const faults: Script

    ghost predicate Valid()
      reads this
    {
      && Consistent(tables)
      && Grounded(tables.ingest, ingestStatus)
      && Grounded(tables.states, segmentStatus)
    }

    /** Both projections show exactly what a rebuild would. */
    ghost predicate Current()
      reads this
    {
      ingestStatus == Rebuild(tables.ingest) && segmentStatus == Rebuild(tables.states)
    }

    constructor (script: Script)
      ensures Valid() && Current() && faults == script && tables == Tables([], [], [])
    {
      tables, ingestStatus, segmentStatus, faults := Tables([], [], []), map[], map[], script;
    }

    /** The inserting transaction alone; the projection may not follow. */
    method CommitEvent(event: IngestEvent) returns (o: Outcome, id: nat)
      requires Valid() && MayCarry(tables, event)
      modifies this`tables, faults
      ensures Valid()
      ensures o != Done ==> tables == old(tables)
      ensures o == Done ==>
                && tables == old(tables).(ingest := InsertEvent(old(tables.ingest), event).0)
                && id == InsertEvent(old(tables.ingest), event).1
                && (old(Current()) ==> Apply(tables.ingest, ingestStatus, id) == Rebuild(tables.ingest))
      ensures old(Clean(faults.ahead)) ==> o == Done && Clean(faults.ahead)
    {
      id := 0;
      o := faults.Next();
      if o == Done {
        EventStep(tables, ingestStatus, event);
        var (log, eventId) := InsertEvent(tables.ingest, event);
        tables, id := tables.(ingest := log), eventId;
      }
    }

    method AppendMediaIngestEvent(event: IngestEvent) returns (o: Outcome)
      requires Valid() && MayCarry(tables, event)
      modifies this`tables, this`ingestStatus, faults
      ensures Valid() && (o == Done && old(Current()) ==> Current())
      ensures tables == old(tables) || tables == old(tables).(ingest := InsertEvent(old(tables.ingest), event).0)
      ensures o == Done ==>
                var (log, id) := InsertEvent(old(tables.ingest), event);
                tables.ingest == log && ingestStatus == Apply(log, old(ingestStatus), id)
      ensures o != Done ==> ingestStatus == old(ingestStatus)
      ensures old(Clean(faults.ahead)) ==> o == Done && Clean(faults.ahead)
    {
      var id;
      o, id := CommitEvent(event);
      if o == Done {
        o := ApplyIngest(id);
      }
    }

    method ApplyIngest(id: nat) returns (o: Outcome)
      requires Grounded(tables.ingest, ingestStatus)
      modifies this`ingestStatus, faults
      ensures Grounded(tables.ingest, ingestStatus)
      ensures ingestStatus == if o == Done then Apply(tables.ingest, old(ingestStatus), id) else old(ingestStatus)
      ensures old(Clean(faults.ahead)) ==> o == Done && Clean(faults.ahead)
    {
      o := faults.Next();
      if o == Done {
        ingestStatus := Apply(tables.ingest, ingestStatus, id);
      }
    }

    method ApplySegment(id: nat) returns (o: Outcome)
      requires Grounded(tables.states, segmentStatus)
      modifies this`segmentStatus, faults
      ensures Grounded(tables.states, segmentStatus)
      ensures segmentStatus == if o == Done then Apply(tables.states, old(segmentStatus), id) else old(segmentStatus)
      ensures old(Clean(faults.ahead)) ==> o == Done && Clean(faults.ahead)
    {
      o := faults.Next();
      if o == Done {
        segmentStatus := Apply(tables.states, segmentStatus, id);
      }
    }

    /** The accepting transaction alone; the projections may not follow. */
    method CommitAcceptance(segment: Segment, event: IngestEvent, receivedAt: int)
      returns (o: Outcome, ghost r: AcceptResult, claim: Claim, ids: (nat, nat))
      requires Valid()
      requires event.collector == segment.collector && event.sourceKey == segment.sourceKey
      modifies this`tables, faults
      ensures Valid() && r == Accept(old(tables), segment, event, receivedAt)
      ensures tables == if o == Done && r.Applied? then r.tables else old(tables)
      ensures o == Done ==> !r.Violation? && claim == r.claim
      ensures o == Done && r.Applied? ==>
                && ids == (r.ingestId, r.stateId)
                && (old(Current()) ==> Apply(tables.ingest, ingestStatus, ids.0) == Rebuild(tables.ingest)
                                       && Apply(tables.states, segmentStatus, ids.1) == Rebuild(tables.states))
      ensures old(Clean(faults.ahead)) ==> o == Done && Clean(faults.ahead)
    {
      claim, ids := NO_CLAIM, (0, 0);
      var result := Accept(tables, segment, event, receivedAt);
      r := result;
      o := faults.Next();
      AcceptKeepsConsistent(tables, segment, event, receivedAt);
      if o == Done {
        claim := result.claim;
        if result.Applied? {
          AcceptStep(tables, ingestStatus, segmentStatus, segment, event, receivedAt);
          tables, ids := result.tables, (result.ingestId, result.stateId);
        }
      }
    }

    method ApplyBoth(ingestId: nat, stateId: nat) returns (o: Outcome)
      requires Grounded(tables.ingest, ingestStatus) && Grounded(tables.states, segmentStatus)
      modifies this`ingestStatus, this`segmentStatus, faults
      ensures Grounded(tables.ingest, ingestStatus) && Grounded(tables.states, segmentStatus)
      ensures o == Done ==>
                && ingestStatus == Apply(tables.ingest, old(ingestStatus), ingestId)
                && segmentStatus == Apply(tables.states, old(segmentStatus), stateId)
      ensures old(Clean(faults.ahead)) ==> o == Done && Clean(faults.ahead)
    {
      o := ApplyIngest(ingestId);
      if o == Done {
        o := ApplySegment(stateId);
      }
    }

    /** One transaction, then the two projections. A conflict changes no table. */
    method AcceptMedia(segment: Segment, event: IngestEvent, receivedAt: int)
      returns (claim: Claim, o: Outcome, ghost r: AcceptResult)
      requires Valid()
      requires event.collector == segment.collector && event.sourceKey == segment.sourceKey
      modifies this`tables, this`ingestStatus, this`segmentStatus, faults
      ensures Valid() && r == Accept(old(tables), segment, event, receivedAt)
      ensures tables == old(tables) || (r.Applied? && tables == r.tables)
      ensures o == Done ==> !r.Violation? && claim == r.claim && (r.Applied? ==> tables == r.tables)
      ensures r.Refused? ==>
                tables == old(tables) && ingestStatus == old(ingestStatus) && segmentStatus == old(segmentStatus)
      ensures o == Done && r.Applied? && old(Current()) ==> Current()
      ensures old(Clean(faults.ahead)) ==> o == Done && Clean(faults.ahead)
    {
      var ids;
      o, r, claim, ids := CommitAcceptance(segment, event, receivedAt);
      if o == Done && claim.status != Conflict {
        o := ApplyBoth(ids.0, ids.1);
      }
    }

    method ResolveMediaClaim(collector: string, sourceKey: string, digest: Digest, metadata: Metadata)
      returns (claim: Claim, o: Outcome)
      modifies faults
      ensures claim == Resolve(tables, collector, sourceKey, digest, metadata)
      ensures old(Clean(faults.ahead)) ==> o == Done && Clean(faults.ahead)
    {
      o := faults.Next();
      claim := Resolve(tables, collector, sourceKey, digest, metadata);
    }

    method RebuildMediaProjections() returns (o: Outcome)
      requires Valid()
      modifies this`ingestStatus, this`segmentStatus, faults
      ensures Valid()
      ensures if o == Done then Current() else ingestStatus == old(ingestStatus) && segmentStatus == old(segmentStatus)
      ensures old(Clean(faults.ahead)) ==> o == Done && Clean(faults.ahead)
    {
      o := faults.Next();
      if o == Done {
        RebuildGrounded(tables.ingest);
        RebuildGrounded(tables.states);
        ingestStatus, segmentStatus := Rebuild(tables.ingest), Rebuild(tables.states);
      }
    }
  }
}
