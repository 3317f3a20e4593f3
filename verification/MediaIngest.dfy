/**
 Media ingest as file-system and database steps (internal/mediaingest/manager.go, files.go): copy to staging, verify,
 probe, claim, rename into place, commit, confirm. Every step may be denied, fail, or be the last one before a crash.
 */
module MediaIngest {
  import opened Faults
  import opened MediaStore
  import opened MediaTypes
  import opened Options
  import opened Projections

  /** What reading and parsing a present sidecar gives. */
  datatype SidecarFile =
    | Unreadable(code: Code)
    | Incomplete(raw: string)
    | Invalid(raw: string, code: Code)
    | Parsed(raw: string, sidecar: Sidecar)

  datatype ProbeResult = Probed(probe: Probe) | ProbeMissing(code: Code) | ProbeFailed(code: Code)

  datatype Confirmation = Confirmation(sidecar: Sidecar, segmentId: nat, metadata: Metadata)

  datatype Identity = Identity(name: string, fingerprint: Fingerprint, collector: string, sourceKey: string)

  /** What one call observes besides the files: growth between the stats, remembered quarantines, the probe's answer. */
  datatype Observed = Observed(growing: bool, rawSettled: bool, sidecarSettled: bool, probed: ProbeResult)

  /** Nothing observed stands in the way. */
  predicate Favourable(seen: Observed) {
    !seen.growing && !seen.rawSettled && !seen.sidecarSettled && Passes(seen.probed)
  }

  predicate Passes(p: ProbeResult) {
    p.Probed? && p.probe.typeMatches && !p.probe.tooLong
  }

  /** A row of the ingest log, but for its time. */
  datatype Report = Report(who: Identity, status: Status, code: Code, temporary: Option<Path>, segmentId: nat)

  /** What a marker deserves: to pass, silence, or one report. */
  datatype Verdict = Pass | Ignore | Refuse(report: Report)

  /** `ErrorCode` of a file step: the storage gate has its own. */
  function FailureCode(cause: Outcome): Code {
    if cause == Denied then StorageProtected else StorageFailed
  }

  function EventOf(r: Report, now: int): IngestEvent {
    IngestEvent(r.who.name, r.who.collector, r.who.sourceKey, r.who.name, r.who.fingerprint, r.status, r.temporary,
        r.segmentId, r.code, now)
  }

  /** The latest row of the marker says just this. */
  predicate Says(log: IngestLog, r: Report) {
    var last := Latest(log, r.who.name);
    last > 0 && SameFields(log[last - 1].value.event, EventOf(r, 0))
  }

  /** The copied file: its size and hash. */
  datatype Copied = Copied(size: nat, digest: Digest)

  const CHUNK: nat := 0x10_0000

  // ----- invariants -----

  /** A segment's path names its content, and the file exists with the segment's size and hash, unless retention
      removed it. */
  ghost predicate HasFile(s: Segment, files: map<Path, Bytes>, removed: set<Path>) {
    && s.path == AcceptedMedia(s.digest) && s.size == |s.digest.contents|
    && (s.path in removed || Holds(files, s.path, s.digest))
  }

  predicate Holds(files: map<Path, Bytes>, path: Path, digest: Digest) {
    path in files && files[path] == digest.contents
  }

  /** Every accepted file holds the content it is named by. */
  ghost predicate NamedByContent(files: map<Path, Bytes>) {
    forall p :: p in files && p.AcceptedMedia? ==> files[p] == p.digest.contents
  }

  ghost predicate AllHaveFiles(segments: seq<Segment>, files: map<Path, Bytes>, removed: set<Path>) {
    forall i :: 0 <= i < |segments| ==> HasFile(segments[i], files, removed)
  }

  /** One segment per digest, and paths named by digest: no two segments share a file. */
  lemma PathsAreDistinct(t: Tables, files: map<Path, Bytes>, removed: set<Path>)
    requires Consistent(t) && AllHaveFiles(t.segments, files, removed)
    ensures forall i, j :: 0 <= i < j < |t.segments| ==> t.segments[i].path != t.segments[j].path
  {
    forall i, j | 0 <= i < j < |t.segments|
      ensures t.segments[i].path != t.segments[j].path
    {
      assert HasFile(t.segments[i], files, removed) && HasFile(t.segments[j], files, removed);
      assert !SameDigest(t.segments, i, j);
    }
  }

  /** A confirmation names a committed segment with its content and metadata, bound to the confirmed source. */
  ghost predicate NamesSegment(t: Tables, c: Confirmation) {
    && 1 <= c.segmentId <= |t.segments|
    && t.segments[c.segmentId - 1].digest == c.sidecar.digest && t.segments[c.segmentId - 1].metadata == c.metadata
    && Bound(t, c.sidecar.collector, c.sidecar.sourceKey, c.segmentId)
  }

  ghost predicate AllNameSegments(t: Tables, confirmations: map<string, Confirmation>) {
    forall name :: name in confirmations ==> NamesSegment(t, confirmations[name])
  }

  /** Every marker's first row is `discovered`. */
  ghost predicate StartsDiscovered(log: IngestLog) {
    forall i :: 0 <= i < |log| && log[i].value.predecessor == 0 ==> log[i].value.event.status == Discovered
  }

  lemma InsertSays(log: IngestLog, report: Report, now: int)
    requires ChainedLog(log) && StartsDiscovered(log)
    requires report.status == Discovered || Latest(log, report.who.name) > 0
    ensures var after := InsertEvent(log, EventOf(report, now)).0;
            && StartsDiscovered(after) && Latest(after, report.who.name) > 0
            && (report.status != Discovered ==> Says(after, report))
  {
    InsertKeepsChain(log, EventOf(report, now));
  }

  lemma ConfirmationsSurvive(t: Tables, more: Tables, confirmations: map<string, Confirmation>)
    requires Extends(t, more) && AllNameSegments(t, confirmations)
    ensures AllNameSegments(more, confirmations)
  {
  }

  lemma ConfirmationReplaced(t: Tables, confirmations: map<string, Confirmation>, name: string, c: Confirmation)
    requires AllNameSegments(t, confirmations) && NamesSegment(t, c)
    ensures AllNameSegments(t, confirmations - {name}) && AllNameSegments(t, (confirmations - {name})[name := c])
    ensures (confirmations - {name})[name := c] == confirmations[name := c]
    ensures (confirmations - {name})[name := c] - {name} == confirmations - {name}
  {
  }

  /** An acceptance that is not refused commits a segment that the confirmation can name. */
  lemma AcceptanceNames(t: Tables, s: Segment, e: IngestEvent, at: int, c: Confirmation)
    requires Consistent(t) && e.collector == s.collector && e.sourceKey == s.sourceKey
    requires c.sidecar.collector == s.collector && c.sidecar.sourceKey == s.sourceKey
    requires c.sidecar.digest == s.digest && c.metadata == s.metadata
    requires Resolve(t, s.collector, s.sourceKey, s.digest, s.metadata).status != Conflict
    ensures var r := Accept(t, s, e, at);
            && r.Applied? && TablesKept(t, r.tables) && NamesSegment(r.tables, c.(segmentId := r.claim.segmentId))
            && (r.tables.segments == t.segments || r.tables.segments == t.segments + [s])
            && (r.tables.segments == t.segments <==>
                Resolve(t, s.collector, s.sourceKey, s.digest, s.metadata).status == Duplicate)
  {
    AcceptKeepsConsistent(t, s, e, at);
  }

  /** What becomes of the claim when the acceptance commits: the duplicate it was, or its own new segment. */
  lemma AcceptanceKeepsClaim(t: Tables, s: Segment, e: IngestEvent, at: int)
    requires Consistent(t) && e.collector == s.collector && e.sourceKey == s.sourceKey
    requires var claim := Resolve(t, s.collector, s.sourceKey, s.digest, s.metadata);
             claim.status != Conflict && (claim.status == NoClaim ==> s.path == AcceptedMedia(s.digest))
    ensures var r := Accept(t, s, e, at);
            && r.Applied? && ClaimKept(t, r.tables, s.collector, s.sourceKey, s.digest, s.metadata)
            && Resolve(r.tables, s.collector, s.sourceKey, s.digest, s.metadata).status == Duplicate
  {
    AcceptKeepsConsistent(t, s, e, at);
    var r := Accept(t, s, e, at);
  }

  /**
   Committed media: accepted and quarantined files are never changed and never disappear, and a new accepted file holds
   the content it is named by.
   */
  ghost predicate MediaKept(before: map<Path, Bytes>, after: map<Path, Bytes>) {
    && (forall p :: p in before && (p.AcceptedMedia? || p.QuarantineMedia?) ==> p in after && after[p] == before[p])
    && (forall p :: p in after && p.AcceptedMedia? && p !in before ==> after[p] == p.digest.contents)
  }

  /**
   What every call keeps, wherever it is cut: committed media and every committed row; a segment's state changes only
   when it is created. The inbox is not even writable.
   */
  ghost predicate Keeps(before: map<Path, Bytes>, after: map<Path, Bytes>, t: Tables, u: Tables) {
    MediaKept(before, after) && TablesKept(t, u)
  }

  ghost predicate TablesKept(t: Tables, u: Tables) {
    Extends(t, u) && (u.segments == t.segments ==> u.states == t.states)
  }

  /** What every call keeps that accepts nothing: the claims, too. */
  ghost predicate Aside(before: map<Path, Bytes>, after: map<Path, Bytes>, t: Tables, u: Tables) {
    MediaKept(before, after) && PlainGrowth(t, u)
  }

  lemma MediaKeptTransitive(a: map<Path, Bytes>, b: map<Path, Bytes>, c: map<Path, Bytes>)
    requires MediaKept(a, b) && MediaKept(b, c)
    ensures MediaKept(a, c)
  {
  }

  lemma AsideTransitive(a: map<Path, Bytes>, b: map<Path, Bytes>, c: map<Path, Bytes>, t: Tables, u: Tables, v: Tables)
    requires Aside(a, b, t, u) && Aside(b, c, u, v)
    ensures Aside(a, c, t, v)
  {
  }

  lemma KeepsTransitive(a: map<Path, Bytes>, b: map<Path, Bytes>, c: map<Path, Bytes>, t: Tables, u: Tables, v: Tables)
    requires Keeps(a, b, t, u) && Keeps(b, c, u, v)
    ensures Keeps(a, c, t, v)
  {
  }

  /** The claim of a source after a run: unchanged, the same duplicate, or its own new segment. */
  predicate ClaimKept(t: Tables, u: Tables, c: string, k: string, d: Digest, m: Metadata) {
    ClaimMayBecome(Resolve(t, c, k, d, m), Resolve(u, c, k, d, m), d)
  }

  predicate ClaimMayBecome(was: Claim, becomes: Claim, d: Digest) {
    || becomes == was
    || (becomes.status == Duplicate && was.status == Duplicate && becomes.path == was.path)
    || (becomes.status == Duplicate && was.status == NoClaim && becomes.path == Some(AcceptedMedia(d)))
  }

  /** An event that carries the duplicate's own segment leaves the duplicate as it is. */
  lemma OwnEventKeepsClaim(t: Tables, e: IngestEvent, d: Digest, m: Metadata)
    requires Consistent(t)
    requires var claim := Resolve(t, e.collector, e.sourceKey, d, m);
             claim.status == Duplicate && claim.segmentId == e.segmentId
    ensures ClaimKept(t, t.(ingest := InsertEvent(t.ingest, e).0), e.collector, e.sourceKey, d, m)
  {
    var u := t.(ingest := InsertEvent(t.ingest, e).0);
    var id := Resolve(t, e.collector, e.sourceKey, d, m).segmentId;
    var bound := BoundId(u, e.collector, e.sourceKey, |u.segments|);
    if bound > 0 {
      BoundAfterEvent(t, e, e.collector, e.sourceKey, bound);
    } else {
      UnboundStays(t, e, e.collector, e.sourceKey, |t.segments|);
    }
  }

  lemma {:induction false} UnboundStays(t: Tables, e: IngestEvent, c: string, k: string, n: nat)
    requires n <= |t.segments| && BoundId(t.(ingest := InsertEvent(t.ingest, e).0), c, k, n) == 0
    ensures BoundId(t, c, k, n) == 0
  {
    if n > 0 {
      UnboundStays(t, e, c, k, n - 1);
      if Bound(t, c, k, n) { BoundKept(t, t.(ingest := InsertEvent(t.ingest, e).0), c, k, n); }
    }
  }

  lemma FilesSurvive(segments: seq<Segment>, before: map<Path, Bytes>, after: map<Path, Bytes>, removed: set<Path>)
    requires AllHaveFiles(segments, before, removed) && MediaKept(before, after)
    ensures AllHaveFiles(segments, after, removed)
  {
  }

  /** Nothing but `target` differs. */
  ghost predicate OnlyAt(before: map<Path, Bytes>, after: map<Path, Bytes>, target: Path) {
    forall p :: p != target ==> (p in before <==> p in after) && (p in before ==> after[p] == before[p])
  }

  predicate Fits(files: map<Path, Bytes>, path: Path, size: nat, digest: Digest) {
    Holds(files, path, digest) && |files[path]| == size
  }

  /** The file the claim needs can be used or put in place. */
  predicate Placeable(files: map<Path, Bytes>, claim: Claim, digest: Digest) {
    match claim.status
    case Conflict => false
    case Duplicate =>
      && claim.path.Some? && claim.path.value.AcceptedMedia?
      && (Holds(files, claim.path.value, digest)
          || (claim.path.value !in files && claim.path.value == AcceptedMedia(digest)))
    case _ => AcceptedMedia(digest) !in files || Holds(files, AcceptedMedia(digest), digest)
  }

  /** Where files and segments are in order, every claim that is not a conflict can be placed. */
  lemma UncontestedIsPlaceable(
      t: Tables, files: map<Path, Bytes>, removed: set<Path>, c: string, k: string, digest: Digest, metadata: Metadata)
    requires AllHaveFiles(t.segments, files, removed) && NamedByContent(files)
    requires Resolve(t, c, k, digest, metadata).status != Conflict
    ensures Placeable(files, Resolve(t, c, k, digest, metadata), digest)
  {
    var claim := Resolve(t, c, k, digest, metadata);
    if claim.status == Duplicate {
      assert HasFile(t.segments[claim.segmentId - 1], files, removed);
    }
  }

  /** The file of a duplicate, if it is there, verifies: only a failing read can make it look different. */
  lemma PresentFileFits(
      t: Tables, files: map<Path, Bytes>, removed: set<Path>, c: string, k: string, digest: Digest, metadata: Metadata)
    requires AllHaveFiles(t.segments, files, removed) && NamedByContent(files)
    requires Resolve(t, c, k, digest, metadata).status == Duplicate
    ensures var path := Resolve(t, c, k, digest, metadata).path;
            path == Some(AcceptedMedia(digest))
                && (path.value in files ==> Fits(files, path.value, |digest.contents|, digest))
  {
    UncontestedIsPlaceable(t, files, removed, c, k, digest, metadata);
    assert HasFile(t.segments[Resolve(t, c, k, digest, metadata).segmentId - 1], files, removed);
  }

  /** The bytes are there, fit the limit where they must be copied, and are what quarantine may already hold. */
  predicate Quarantinable(files: map<Path, Bytes>, who: Identity, candidate: Option<Bytes>, maximum: nat, copies: bool)
  {
    var target := QuarantineMedia(who.name, who.fingerprint);
    && candidate.Some?
    && if target in files then files[target] == candidate.value else copies ==> |candidate.value| <= maximum
  }

  /** How quarantine ends: the bytes are kept, there never were any, or they cannot be kept. */
  function QuarantineEnd(
      files: map<Path, Bytes>, who: Identity, candidate: Option<Bytes>, maximum: nat, staging: Option<Path>): Code
  {
    if Quarantinable(files, who, candidate, maximum, staging == None) then NoError
    else if staging == None && candidate == None && QuarantineMedia(who.name, who.fingerprint) !in files
        then SourceMissing
    else QuarantineFailed
  }

  function QuarantineReport(
      files: map<Path, Bytes>, who: Identity, candidate: Option<Bytes>, maximum: nat, staging: Option<Path>,
      reason: Code): Report
  {
    EndReport(QuarantineEnd(files, who, candidate, maximum, staging), who, staging, reason)
  }

  function EndReport(end: Code, who: Identity, temporary: Option<Path>, reason: Code): Report {
    if end == NoError then Report(who, Quarantined, reason, Some(QuarantineMedia(who.name, who.fingerprint)), 0)
    else if end == SourceMissing then Report(who, Pending, end, None, 0)
    else Report(who, Failed, end, temporary, 0)
  }

  // ----- verdicts -----

  /** A sidecar that does not parse. */
  function SidecarVerdict(
      who: Identity, file: SidecarFile, source: Option<Bytes>, files: map<Path, Bytes>, maximum: nat,
      settled: bool): Verdict
    requires !file.Parsed?
  {
    match file
    case Unreadable(code) => Refuse(Report(who, Failed, code, None, 0))
    case Incomplete(raw) =>
      if settled then Ignore else Refuse(Report(who.(fingerprint := OfRaw(raw)), Pending, SidecarIncomplete, None, 0))
    case Invalid(raw, code) =>
      if settled then Ignore
          else Refuse(QuarantineReport(files, who.(fingerprint := OfRaw(raw)), source, maximum, None, code))
  }

  /** The stats of the source. */
  function SourceVerdict(
      who: Identity, sidecar: Sidecar, source: Option<Bytes>, files: map<Path, Bytes>, maximum: nat,
      growing: bool): Verdict
  {
    if source == None then Refuse(Report(who, Pending, SourceMissing, None, 0))
    else if |source.value| > maximum || sidecar.size > maximum then Refuse(Report(who, Failed, TooLarge, None, 0))
    else if growing then Refuse(Report(who, Pending, FileGrowing, None, 0))
    else if |source.value| != sidecar.size
        then Refuse(QuarantineReport(files, who, source, maximum, None, SizeMismatch))
    else Pass
  }

  /** The copied bytes and their probe. */
  function ContentVerdict(
      who: Identity, sidecar: Sidecar, source: Bytes, files: map<Path, Bytes>, maximum: nat,
      probed: ProbeResult): Verdict
  {
    var staging := Some(Staging(who.name));
    if |source| != sidecar.size then Refuse(QuarantineReport(files, who, Some(source), maximum, staging, SizeMismatch))
    else if Sha256(source) != sidecar.digest
        then Refuse(QuarantineReport(files, who, Some(source), maximum, staging, HashMismatch))
    else ProbeVerdict(who, source, files, maximum, probed)
  }

  function ProbeVerdict(
      who: Identity, source: Bytes, files: map<Path, Bytes>, maximum: nat,
      probed: ProbeResult): Verdict
  {
    var staging := Some(Staging(who.name));
    match probed
    case ProbeMissing(code) => Refuse(Report(who, Pending, code, staging, 0))
    case ProbeFailed(code) => Refuse(QuarantineReport(files, who, Some(source), maximum, staging, code))
    case Probed(probe) =>
      if !probe.typeMatches then Refuse(QuarantineReport(files, who, Some(source), maximum, staging, TypeInvalid))
      else if probe.tooLong then Refuse(QuarantineReport(files, who, Some(source), maximum, staging, DurationInvalid))
      else Pass
  }

  /** The claim and the file it needs. */
  function ClaimVerdict(who: Identity, sidecar: Sidecar, files: map<Path, Bytes>, maximum: nat, claim: Claim): Verdict {
    var staging := Some(Staging(who.name));
    if claim.status == Conflict then
      Refuse(QuarantineReport(files, who, Some(sidecar.digest.contents), maximum, staging,
                              if claim.digest != Some(sidecar.digest) then IdempotencyConflict else MetadataConflict))
    else if Placeable(files, claim, sidecar.digest) then Pass
    else Refuse(Report(who, Failed, StorageFailed, staging, if claim.status == Duplicate then claim.segmentId else 0))
  }

  /** It went on exactly on acceptance, and a refusal is the last thing said of the marker. */
  predicate Obeys(v: Verdict, goes: bool, log: IngestLog) {
    (goes <==> v.Pass?) && (v.Refuse? ==> Says(log, v.report))
  }

  /** The marker's latest row accepts the segment, and follows the row that validated the staged copy. */
  predicate SaysAccepted(log: IngestLog, who: Identity, path: Path, segmentId: nat) {
    && Says(log, Report(who, Accepted, NoError, Some(path), segmentId))
    && var before := log[Latest(log, who.name) - 1].value.predecessor;
       1 <= before <= |log| && SameFields(log[before - 1].value.event, EventOf(ValidatedReport(who), 0))
  }

  /** The confirmed segment's file is there, and its acceptance is the last thing said of the marker. */
  ghost predicate AcceptedAs(t: Tables, files: map<Path, Bytes>, who: Identity, c: Confirmation) {
    && 1 <= c.segmentId <= |t.segments|
    && Holds(files, t.segments[c.segmentId - 1].path, c.sidecar.digest)
    && SaysAccepted(t.ingest, who, t.segments[c.segmentId - 1].path, c.segmentId)
  }

  lemma AcceptanceAnnounced(
      t: Tables, files: map<Path, Bytes>, s: Segment, who: Identity, e: IngestEvent, at: int, c: Confirmation)
    requires Consistent(t) && StartsDiscovered(t.ingest) && Says(t.ingest, ValidatedReport(who))
    requires s.collector == who.collector && s.sourceKey == who.sourceKey && Holds(files, s.path, s.digest)
             && c.sidecar.digest == s.digest
    requires var claim := Resolve(t, s.collector, s.sourceKey, s.digest, s.metadata);
             && claim.status != Conflict && (claim.status == Duplicate ==> claim.path == Some(s.path))
             && e == EventOf(Report(who, Accepted, NoError, Some(s.path), claim.segmentId), at)
    ensures var r := Accept(t, s, e, at);
            && r.Applied? && StartsDiscovered(r.tables.ingest)
            && AcceptedAs(r.tables, files, who, c.(segmentId := r.claim.segmentId))
  {
    AcceptInserts(t, s, e, at);
    var id := Accept(t, s, e, at).claim.segmentId;
    AcceptanceSays(t.ingest, who, s.path, id, e.(segmentId := id));
  }

  function ValidatedReport(who: Identity): Report {
    Report(who, Validated, NoError, Some(Staging(who.name)), 0)
  }

  /** A new staging copy is not in the way. */
  lemma VerdictAfterCopy(
      before: map<Path, Bytes>, after: map<Path, Bytes>, who: Identity, sidecar: Sidecar, maximum: nat, claim: Claim)
    requires OnlyAt(before, after, Staging(who.name))
    ensures ClaimVerdict(who, sidecar, after, maximum, claim) == ClaimVerdict(who, sidecar, before, maximum, claim)
  {
  }

  lemma ContentAfterCopy(
      before: map<Path, Bytes>, after: map<Path, Bytes>, who: Identity, sidecar: Sidecar, source: Bytes, maximum: nat,
      probed: ProbeResult)
    requires OnlyAt(before, after, Staging(who.name))
    ensures ContentVerdict(who, sidecar, source, after, maximum, probed)
              == ContentVerdict(who, sidecar, source, before, maximum, probed)
    ensures MediaKept(before, after)
  {
  }

  lemma AcceptanceSays(log: IngestLog, who: Identity, path: Path, segmentId: nat, e: IngestEvent)
    requires ChainedLog(log) && StartsDiscovered(log) && Says(log, ValidatedReport(who))
    requires SameFields(e, EventOf(Report(who, Accepted, NoError, Some(path), segmentId), 0))
    ensures var after := InsertEvent(log, e).0; SaysAccepted(after, who, path, segmentId) && StartsDiscovered(after)
  {
    InsertKeepsChain(log, e);
    EventKeyIsFree(log, e);
    var previous := Latest(log, who.name);
    var after := InsertEvent(log, e).0;
    assert after == log + [LogRow(who.name, Chained(e, previous))];
    assert after[..|log|] == log;
  }

  class Manager {
    /** The inbox, written by devices only. */
    var sources: map<string, Bytes>
    var sidecars: map<string, SidecarFile>
    var confirmations: map<string, Confirmation>
    /** The managed directory. */
    var files: map<Path, Bytes>
    /** Accepted files that retention removed. */
    ghost var removed: set<Path>
    const store: Store
    const faults: Script
    const maxSegmentBytes: nat

    ghost predicate Valid()
      reads this, store
    {
      && store.faults == faults && store.Valid()
      && AllHaveFiles(store.tables.segments, files, removed) && NamedByContent(files)
      && AllNameSegments(store.tables, confirmations)
      && StartsDiscovered(store.tables.ingest)
    }

    /** The marker has been discovered. */
    predicate Known(name: string)
      reads this, store
    {
      Latest(store.tables.ingest, name) > 0
    }

    constructor (script: Script, maximum: nat)
      ensures Valid() && fresh(store) && faults == script && maxSegmentBytes == maximum
      ensures sources == map[] && sidecars == map[] && confirmations == map[] && files == map[] && removed == {}
    {
      var database := new Store(script);
      store, faults, maxSegmentBytes := database, script, maximum;
      sources, sidecars, confirmations, files, removed := map[], map[], map[], map[], {};
    }

    static function WithEvent(t: Tables, e: IngestEvent): Tables {
      t.(ingest := InsertEvent(t.ingest, e).0)
    }

    /** `record`: afterwards the latest row of the marker says the report; `discovered` is only ever a first row. */
    method Record(report: Report, now: int) returns (o: Outcome)
      requires Valid() && MayCarry(store.tables, EventOf(report, now))
               && (report.status == Discovered || Known(report.who.name))
      modifies store, faults
      ensures Valid() && Extends(old(store.tables), store.tables)
      ensures store.tables == old(store.tables) || store.tables == WithEvent(old(store.tables), EventOf(report, now))
      ensures o == Done ==>
                Known(report.who.name) && (report.status != Discovered ==> Says(store.tables.ingest, report))
      ensures report.segmentId == 0 ==> PlainGrowth(old(store.tables), store.tables)
      ensures old(Clean(faults.ahead)) ==> o == Done && Clean(faults.ahead)
    {
      var event := EventOf(report, now);
      InsertSays(store.tables.ingest, report, now);
      o := store.AppendMediaIngestEvent(event);
      ConfirmationsSurvive(old(store.tables), store.tables, confirmations);
    }

    /** An error that is recorded, unless the process died of it. */
    method RecordFailure(cause: Outcome, report: Report, now: int) returns (o: Outcome)
      requires Valid() && MayCarry(store.tables, EventOf(report, now)) && report.status == Failed
               && Known(report.who.name)
      modifies store, faults
      ensures Valid() && Extends(old(store.tables), store.tables)
      ensures store.tables == old(store.tables) || store.tables == WithEvent(old(store.tables), EventOf(report, now))
      ensures report.segmentId == 0 ==> PlainGrowth(old(store.tables), store.tables)
      ensures o == Done ==> Says(store.tables.ingest, report)
      ensures old(Clean(faults.ahead)) && cause != Crash ==> o == Done
    {
      if cause == Crash { return Crash; }
      o := Record(report, now);
    }

    // ----- file steps -----

    /** Copies the source chunk by chunk into a truncated target, flushes it and reads it back. */
    method CopySource(name: string, target: Path) returns (o: Outcome, copied: Copied)
      modifies this`files, faults
      ensures OnlyAt(old(files), files, target)
      ensures o == Done ==>
                && name in sources && |sources[name]| <= maxSegmentBytes
                && target in files && files[target] == sources[name]
                && copied == Copied(|sources[name]|, Sha256(sources[name]))
      ensures old(Clean(faults.ahead)) ==>
                && Clean(faults.ahead) && (o == Done || o == Fails)
                && (name in sources && |sources[name]| <= maxSegmentBytes ==> o == Done)
    {
      copied := Copied(0, Sha256([]));
      o := faults.Next();
      if o != Done { return; }
      if name !in sources { o := Fails; return; }
      var source := sources[name];
      files := files[target := []];
      var total := 0;
      while total < |source|
        invariant total <= |source| && target in files && files[target] == source[..total] && total <= maxSegmentBytes
        invariant OnlyAt(old(files), files, target)
        invariant old(Clean(faults.ahead)) ==> Clean(faults.ahead)
      {
        var next := if total + CHUNK < |source| then total + CHUNK else |source|;
        o := faults.Next();
        if o == Done && next > maxSegmentBytes { o := Fails; }
        if o != Done { return; }
        files := files[target := files[target] + source[total..next]];
        total := next;
      }
      assert source[..total] == source;
      o := faults.Next();
      copied := Copied(total, Sha256(files[target]));
    }

    /** Renames a verified staging file to the free accepted path, or verifies what is there and drops the copy. */
    method InstallAccepted(staging: Path, size: nat, digest: Digest) returns (o: Outcome)
      requires staging.Staging? && Fits(files, staging, size, digest)
      modifies this`files, faults
      ensures MediaKept(old(files), files)
      ensures o == Done ==> Holds(files, AcceptedMedia(digest), digest)
      ensures old(Clean(faults.ahead)) ==>
                && Clean(faults.ahead) && (o == Done || o == Fails)
                && (o == Done <==>
                    AcceptedMedia(digest) !in old(files) || Holds(old(files), AcceptedMedia(digest), digest))
    {
      var accepted := AcceptedMedia(digest);
      o := faults.Next();
      if o != Done { return; }
      if accepted in files {
        if !Fits(files, accepted, size, digest) { o := Fails; return; }
        o := faults.Next();
        if o == Done { files := files - {staging}; }
      } else {
        o := faults.Next();
        if o != Done { return; }
        files := (files - {staging})[accepted := files[staging]];
        o := faults.Next();
      }
    }

    // ----- quarantine -----

    /** The bytes that go to quarantine: the staged copy, or the source itself. */
    function Candidate(name: string, staging: Option<Path>): Option<Bytes>
      reads this
    {
      if staging.Some? then (if staging.value in files then Some(files[staging.value]) else None)
      else if name in sources then Some(sources[name]) else None
    }

    /** Brings the candidate to its quarantine path, or compares it with what is there; `code` and `temporary`
        describe a failure. */
    method FillQuarantine(who: Identity, staging: Option<Path>)
      returns (o: Outcome, code: Code, temporary: Option<Path>)
      requires staging.Some? ==> staging.value.Staging?
      modifies this`files, faults
      ensures MediaKept(old(files), files)
      ensures o == Done ==>
                var target := QuarantineMedia(who.name, who.fingerprint);
                target in files && old(Candidate(who.name, staging)) == Some(files[target])
      ensures o == Done <==> code == NoError
      ensures code == SourceMissing ==> old(Candidate(who.name, staging)) == None
      ensures old(Clean(faults.ahead)) ==>
                && Clean(faults.ahead) && (o == Done || (o == Fails && temporary == staging))
                && code == QuarantineEnd(old(files), who, old(Candidate(who.name, staging)), maxSegmentBytes, staging)
    {
      code, temporary := QuarantineFailed, staging;
      o := faults.Next();
      if o != Done { return; }
      var target := QuarantineMedia(who.name, who.fingerprint);
      var candidate := Candidate(who.name, staging);
      if target in files {
        o := faults.Next();
        if o == Done && candidate != Some(files[target]) { o := Fails; }
        if o == Done { code := NoError; }
        return;
      }
      var partial := QuarantinePartial(who.name, who.fingerprint);
      if staging.Some? {
        if candidate == None { o := Fails; return; }
        partial := staging.value;
      } else {
        var copied;
        o, copied := CopySource(who.name, partial);
        if o == Fails && who.name !in sources { code := SourceMissing; }
        if o == Denied { o := Fails; }
        if o != Done { return; }
      }
      o := faults.Next();
      if o != Done { return; }
      files := (files - {partial})[target := files[partial]];
      temporary := Some(target);
      o := faults.Next();
      if o == Done { code := NoError; }
    }

    /** All file steps of quarantine: fill the target, drop the staged copy, write the sidecar copy and the reason. */
    method QuarantineFiles(who: Identity, staging: Option<Path>)
      returns (o: Outcome, code: Code, temporary: Option<Path>)
      requires staging.Some? ==> staging.value.Staging?
      modifies this`files, faults
      ensures MediaKept(old(files), files)
      ensures o == Done ==>
                var target := QuarantineMedia(who.name, who.fingerprint);
                target in files && old(Candidate(who.name, staging)) == Some(files[target])
      ensures o == Done && staging.Some? ==> staging.value !in files
      ensures o == Done <==> code == NoError
      ensures code == SourceMissing ==> old(Candidate(who.name, staging)) == None
      ensures old(Clean(faults.ahead)) ==>
                && Clean(faults.ahead) && (o == Done || (o == Fails && temporary == staging))
                && code == QuarantineEnd(old(files), who, old(Candidate(who.name, staging)), maxSegmentBytes, staging)
    {
      o, code, temporary := FillQuarantine(who, staging);
      if o != Done { return; }
      code, temporary := QuarantineFailed, staging;
      if staging.Some? && staging.value in files {
        o := faults.Next();
        if o != Done { return; }
        files := files - {staging.value};
      }
      temporary := None;
      o := faults.Next();
      if o == Done { o := faults.Next(); }
      if o == Done { code := NoError; }
    }

    /**
     Quarantine: the candidate, its sidecar and the reason are kept, then the decision is recorded and remembered. A
     success has recorded the decision, or that there was nothing to keep.
     */
    method Quarantine(who: Identity, staging: Option<Path>, reason: Code, now: int) returns (o: Outcome)
      requires Valid() && (staging.Some? ==> staging.value.Staging?) && Known(who.name)
      modifies this`files, store, faults
      ensures Valid() && Aside(old(files), files, old(store.tables), store.tables)
      ensures o == Done && old(Candidate(who.name, staging)).Some? ==>
                Holds(files, QuarantineMedia(who.name, who.fingerprint),
                    Sha256(old(Candidate(who.name, staging)).value))
      ensures o == Done && old(Candidate(who.name, staging)).Some? ==>
                Says(store.tables.ingest, Report(who, Quarantined, reason,
                    Some(QuarantineMedia(who.name, who.fingerprint)), 0))
      ensures old(Clean(faults.ahead)) ==>
                Says(store.tables.ingest, QuarantineReport(old(files), who, old(Candidate(who.name, staging)),
                    maxSegmentBytes, staging, reason))
    {
      var code, temporary;
      o, code, temporary := QuarantineFiles(who, staging);
      FilesSurvive(store.tables.segments, old(files), files, removed);
      o := ReportQuarantine(o, code, who, temporary, reason, now);
    }

    /** What is recorded of a quarantine; a decision is also remembered. */
    method ReportQuarantine(end: Outcome, code: Code, who: Identity, temporary: Option<Path>, reason: Code, now: int)
      returns (o: Outcome)
      requires Valid() && Known(who.name) && (end == Done <==> code == NoError)
      modifies store, faults
      ensures Valid() && PlainGrowth(old(store.tables), store.tables)
      ensures o == Done ==> code == NoError || code == SourceMissing
      ensures o == Done || (old(Clean(faults.ahead)) && (end == Done || end == Fails)) ==>
                Says(store.tables.ingest, EndReport(code, who, temporary, reason))
    {
      if end == Done {
        o := Record(EndReport(code, who, temporary, reason), now);
        if o == Done { o := faults.Next(); }
      } else if end == Fails && code == SourceMissing {
        o := Record(EndReport(code, who, temporary, reason), now);
      } else {
        o := FailAfterRecord(end, Report(who, Failed, code, temporary, 0), now);
      }
    }

    /** The error goes on to the caller whether or not it could be recorded. */
    method FailAfterRecord(cause: Outcome, report: Report, now: int) returns (o: Outcome)
      requires Valid() && cause != Done && report.status == Failed && report.segmentId == 0 && Known(report.who.name)
      modifies store, faults
      ensures Valid() && PlainGrowth(old(store.tables), store.tables) && o != Done
      ensures old(Clean(faults.ahead)) && cause == Fails ==> Says(store.tables.ingest, report)
    {
      o := cause;
      if cause == Crash || cause == Denied { return; }
      o := Record(report, now);
      o := if o == Crash then Crash else cause;
    }

    /** Retention removes a file. */
    method Lose(path: Path)
      requires Valid()
      modifies this`files, this`removed
      ensures Valid() && files == old(files) - {path} && removed == old(removed) + {path}
    {
      forall i | 0 <= i < |store.tables.segments|
        ensures HasFile(store.tables.segments[i], files - {path}, removed + {path})
      {
        assert HasFile(store.tables.segments[i], files, removed);
      }
      files, removed := files - {path}, removed + {path};
    }

    // ----- the protocol -----

    /** The source is complete and true to its sidecar. */
    predicate Sound(name: string, sidecar: Sidecar)
      reads this
    {
      && name in sources && |sources[name]| <= maxSegmentBytes
      && sidecar.size == |sources[name]| && sidecar.digest == Sha256(sources[name])
    }

    function SidecarIdentity(name: string, sidecar: Sidecar): Identity {
      Identity(name, OfSidecar(sidecar), sidecar.collector, sidecar.sourceKey)
    }

    function SourceAt(name: string): Option<Bytes>
      reads this
    {
      if name in sources then Some(sources[name]) else None
    }

    /** Up to the copy: what the marker, its sidecar and the stats of the source decide. */
    function EarlyVerdict(name: string, seen: Observed): Verdict
      reads this
    {
      var who := Identity(name, OfName(name), "", "");
      if name !in sidecars then Refuse(Report(who, Pending, SidecarMissing, None, 0))
      else if !sidecars[name].Parsed? then SidecarVerdict(who, sidecars[name], SourceAt(name), files,
          maxSegmentBytes, seen.rawSettled)
      else if seen.rawSettled || seen.sidecarSettled then Ignore
      else
        var sidecar := sidecars[name].sidecar;
        SourceVerdict(SidecarIdentity(name, sidecar), sidecar, SourceAt(name), files, maxSegmentBytes, seen.growing)
    }

    /** Up to the copy: the marker is recorded, the sidecar read, and the source found complete and still. */
    method Prepare(name: string, seen: Observed, now: int) returns (o: Outcome, ready: Option<Sidecar>)
      requires Valid()
      modifies this`files, store, faults
      ensures Valid() && Aside(old(files), files, old(store.tables), store.tables)
      ensures ready.Some? ==>
                && o == Done && files == old(files) && Known(name)
                && name in sidecars && sidecars[name].Parsed? && sidecars[name].sidecar == ready.value
                    && name in sources
                && |sources[name]| <= maxSegmentBytes && (old(Clean(faults.ahead)) ==> Clean(faults.ahead))
      ensures old(Clean(faults.ahead)) ==> Obeys(old(EarlyVerdict(name, seen)), ready.Some?, store.tables.ingest)
    {
      ready := None;
      o := Record(Report(Identity(name, OfName(name), "", ""), Discovered, NoError, None, 0), now);
      if o != Done { return; }
      ghost var discovered := store.tables;
      o, ready := Inspect(name, seen, now);
      AsideTransitive(old(files), old(files), files, old(store.tables), discovered, store.tables);
    }

    /** What comes after the marker was recorded. */
    method Inspect(name: string, seen: Observed, now: int) returns (o: Outcome, ready: Option<Sidecar>)
      requires Valid() && Known(name)
      modifies this`files, store, faults
      ensures Valid() && Aside(old(files), files, old(store.tables), store.tables)
      ensures ready.Some? ==>
                && o == Done && files == old(files) && store.tables == old(store.tables)
                && name in sidecars && sidecars[name].Parsed? && sidecars[name].sidecar == ready.value
                    && name in sources
                && |sources[name]| <= maxSegmentBytes && (old(Clean(faults.ahead)) ==> Clean(faults.ahead))
      ensures old(Clean(faults.ahead)) ==> Obeys(old(EarlyVerdict(name, seen)), ready.Some?, store.tables.ingest)
    {
      o, ready := Done, None;
      var who := Identity(name, OfName(name), "", "");
      if name !in sidecars {
        o := Record(Report(who, Pending, SidecarMissing, None, 0), now);
        return;
      }
      if sidecars[name].Parsed? {
        if seen.rawSettled || seen.sidecarSettled { return; }
        var sidecar := sidecars[name].sidecar;
        o, ready := Settle(SidecarIdentity(name, sidecar), sidecar, seen.growing, now);
      } else {
        o := RejectSidecar(who, sidecars[name], seen.rawSettled, now);
      }
    }

    /** A sidecar that cannot be used. */
    method RejectSidecar(who: Identity, file: SidecarFile, settled: bool, now: int) returns (o: Outcome)
      requires Valid() && !file.Parsed? && Known(who.name)
      modifies this`files, store, faults
      ensures Valid() && Aside(old(files), files, old(store.tables), store.tables)
      ensures old(Clean(faults.ahead)) ==>
                Obeys(SidecarVerdict(who, file, SourceAt(who.name), old(files), maxSegmentBytes, settled), false,
                    store.tables.ingest)
    {
      if file.Unreadable? {
        o := Record(Report(who, Failed, file.code, None, 0), now);
        return;
      }
      o := Done;
      if !settled {
        var raw := who.(fingerprint := OfRaw(file.raw));
        if file.Incomplete? {
          o := Record(Report(raw, Pending, SidecarIncomplete, None, 0), now);
        } else {
          o := Quarantine(raw, None, file.code, now);
        }
      }
    }

    /** The two stats of the source around the settle interval. */
    method Settle(who: Identity, sidecar: Sidecar, growing: bool, now: int) returns (o: Outcome, ready: Option<Sidecar>)
      requires Valid() && Known(who.name)
      modifies this`files, store, faults
      ensures Valid() && Aside(old(files), files, old(store.tables), store.tables)
      ensures ready.Some? ==>
                && o == Done && ready == Some(sidecar) && files == old(files) && store.tables == old(store.tables)
                && who.name in sources && |sources[who.name]| <= maxSegmentBytes
                    && (old(Clean(faults.ahead)) ==> Clean(faults.ahead))
      ensures old(Clean(faults.ahead)) ==>
                Obeys(SourceVerdict(who, sidecar, SourceAt(who.name), old(files), maxSegmentBytes, growing),
                    ready.Some?, store.tables.ingest)
    {
      o := faults.Next();
      if o != Done {
        ready := None;
        o := RecordFailure(o, Report(who, Failed, StorageFailed, None, 0), now);
      } else {
        o, ready := CheckSource(who, sidecar, growing, now);
      }
    }

    /** What the stats show. */
    method CheckSource(who: Identity, sidecar: Sidecar, growing: bool, now: int)
      returns (o: Outcome, ready: Option<Sidecar>)
      requires Valid() && Known(who.name)
      modifies this`files, store, faults
      ensures Valid() && Aside(old(files), files, old(store.tables), store.tables)
      ensures ready.Some? ==>
                && o == Done && ready == Some(sidecar) && files == old(files) && store.tables == old(store.tables)
                && who.name in sources && |sources[who.name]| <= maxSegmentBytes
                    && (old(Clean(faults.ahead)) ==> Clean(faults.ahead))
      ensures old(Clean(faults.ahead)) ==>
                Obeys(SourceVerdict(who, sidecar, SourceAt(who.name), old(files), maxSegmentBytes, growing),
                    ready.Some?, store.tables.ingest)
    {
      o, ready := Done, None;
      var report := Report(who, Pending, SourceMissing, None, 0);
      if who.name in sources {
        if |sources[who.name]| > maxSegmentBytes || sidecar.size > maxSegmentBytes {
          report := Report(who, Failed, TooLarge, None, 0);
        } else if growing {
          report := Report(who, Pending, FileGrowing, None, 0);
        } else if |sources[who.name]| != sidecar.size {
          o := Quarantine(who, None, SizeMismatch, now);
          return;
        } else {
          ready := Some(sidecar);
          return;
        }
      }
      o := Record(report, now);
    }

    /** The staged copy is the declared source. */
    predicate Staged(name: string, sidecar: Sidecar)
      reads this
    {
      Fits(files, Staging(name), sidecar.size, sidecar.digest)
    }

    /** Copy, compare with the sidecar, probe, and record the copy as validated. */
    method Stage(name: string, sidecar: Sidecar, probed: ProbeResult, now: int)
      returns (o: Outcome, metadata: Option<Metadata>)
      requires Valid() && Known(name) && name in sources && |sources[name]| <= maxSegmentBytes
      modifies this`files, store, faults
      ensures Valid() && Aside(old(files), files, old(store.tables), store.tables)
      ensures metadata.Some? ==>
                && o == Done && Staged(name, sidecar) && OnlyAt(old(files), files, Staging(name))
                && Sound(name, sidecar) && Passes(probed) && metadata.value == MetadataOf(sidecar, probed.probe)
                && Says(store.tables.ingest, ValidatedReport(SidecarIdentity(name, sidecar)))
                && (old(Clean(faults.ahead)) ==> Clean(faults.ahead))
      ensures old(Clean(faults.ahead)) ==>
                Obeys(ContentVerdict(SidecarIdentity(name, sidecar), sidecar, sources[name], old(files),
                    maxSegmentBytes, probed), metadata.Some?,
                      store.tables.ingest)
    {
      metadata := None;
      var staging := Staging(name);
      var copied;
      o, copied := CopySource(name, staging);
      FilesSurvive(store.tables.segments, old(files), files, removed);
      if o == Denied { return; }
      if o != Done {
        o := RecordFailure(o, Report(SidecarIdentity(name, sidecar), Failed, StorageFailed, Some(staging), 0), now);
        return;
      }
      ghost var copy := files;
      ContentAfterCopy(old(files), files, SidecarIdentity(name, sidecar), sidecar, sources[name], maxSegmentBytes,
          probed);
      o, metadata := Judge(SidecarIdentity(name, sidecar), sidecar, copied, probed, now);
      MediaKeptTransitive(old(files), copy, files);
    }

    /** The staged copy against its sidecar. */
    method Judge(who: Identity, sidecar: Sidecar, copied: Copied, probed: ProbeResult, now: int)
      returns (o: Outcome, metadata: Option<Metadata>)
      requires Valid() && Known(who.name) && Staging(who.name) in files
      requires copied == Copied(|files[Staging(who.name)]|, Sha256(files[Staging(who.name)]))
      modifies this`files, store, faults
      ensures Valid() && Aside(old(files), files, old(store.tables), store.tables)
      ensures metadata.Some? ==>
                && o == Done && Staged(who.name, sidecar) && files == old(files)
                && Passes(probed) && metadata.value == MetadataOf(sidecar, probed.probe)
                && Says(store.tables.ingest, ValidatedReport(who))
                && (old(Clean(faults.ahead)) ==> Clean(faults.ahead))
      ensures old(Clean(faults.ahead)) ==>
                Obeys(ContentVerdict(who, sidecar, old(files[Staging(who.name)]), old(files), maxSegmentBytes,
                    probed), metadata.Some?, store.tables.ingest)
    {
      metadata := None;
      if copied.size != sidecar.size {
        o := Quarantine(who, Some(Staging(who.name)), SizeMismatch, now);
      } else if copied.digest != sidecar.digest {
        o := Quarantine(who, Some(Staging(who.name)), HashMismatch, now);
      } else {
        o, metadata := CheckProbe(who, sidecar, probed, now);
      }
    }

    /** The probe of the staged copy, and the `validated` record. */
    method CheckProbe(who: Identity, sidecar: Sidecar, probed: ProbeResult, now: int)
      returns (o: Outcome, metadata: Option<Metadata>)
      requires Valid() && Staged(who.name, sidecar) && Known(who.name)
      modifies this`files, store, faults
      ensures Valid() && Aside(old(files), files, old(store.tables), store.tables)
      ensures metadata.Some? ==>
                && o == Done && files == old(files)
                && Passes(probed) && metadata.value == MetadataOf(sidecar, probed.probe)
                && Says(store.tables.ingest, ValidatedReport(who))
                && (old(Clean(faults.ahead)) ==> Clean(faults.ahead))
      ensures old(Clean(faults.ahead)) ==>
                Obeys(ProbeVerdict(who, sidecar.digest.contents, old(files), maxSegmentBytes, probed),
                    metadata.Some?, store.tables.ingest)
    {
      metadata := None;
      var staging := Staging(who.name);
      o := faults.Next();
      if o != Done { return; }
      match probed
      case ProbeMissing(code) =>
        o := Record(Report(who, Pending, code, Some(staging), 0), now);
        if o == Done { o := Fails; }
      case ProbeFailed(code) =>
        o := Quarantine(who, Some(staging), code, now);
      case Probed(probe) =>
        if !probe.typeMatches || probe.tooLong {
          o := Quarantine(who, Some(staging), if !probe.typeMatches then TypeInvalid else DurationInvalid, now);
        } else {
          o := Record(ValidatedReport(who), now);
          if o == Done { metadata := Some(MetadataOf(sidecar, probe)); }
        }
    }

    /** Resolves the claim; afterwards the accepted file is in place. */
    method Place(name: string, sidecar: Sidecar, metadata: Metadata, now: int)
      returns (o: Outcome, placed: Option<(Claim, Path)>)
      requires Valid() && Staged(name, sidecar) && Known(name)
      modifies this`files, store, faults
      ensures Valid() && Keeps(old(files), files, old(store.tables), store.tables)
              && store.tables.segments == old(store.tables.segments)
      ensures ClaimKept(old(store.tables), store.tables, sidecar.collector, sidecar.sourceKey, sidecar.digest, metadata)
      ensures placed.Some? ==>
                var (claim, path) := placed.value;
                && o == Done && store.tables == old(store.tables)
                && claim == Resolve(store.tables, sidecar.collector, sidecar.sourceKey, sidecar.digest, metadata)
                    && claim.status != Conflict
                && path.AcceptedMedia? && Holds(files, path, sidecar.digest)
                && (claim.status == NoClaim ==> path == AcceptedMedia(sidecar.digest))
                    && (claim.status == Duplicate ==> claim.path == Some(path))
                && (old(Clean(faults.ahead)) ==> Clean(faults.ahead))
      ensures old(Clean(faults.ahead)) ==>
                Obeys(ClaimVerdict(SidecarIdentity(name, sidecar), sidecar, old(files), maxSegmentBytes,
                                   Resolve(old(store.tables), sidecar.collector, sidecar.sourceKey, sidecar.digest,
                                       metadata)),
                      placed.Some?, store.tables.ingest)
    {
      placed := None;
      var who := SidecarIdentity(name, sidecar);
      var claim;
      claim, o := store.ResolveMediaClaim(sidecar.collector, sidecar.sourceKey, sidecar.digest, metadata);
      if o == Done && claim.status == Duplicate {
        o, placed := PlaceDuplicate(who, sidecar, metadata, claim, now);
      } else {
        var installed;
        o, installed := PlaceNew(o, who, sidecar, claim, now);
        PlainGrowthKeepsClaim(old(store.tables), store.tables, sidecar.collector, sidecar.sourceKey, sidecar.digest,
            metadata);
        if installed { placed := Some((claim, AcceptedMedia(sidecar.digest))); }
      }
    }

    /** A claim that nobody holds yet is installed; a contested one is quarantined; a failed one is recorded. */
    method PlaceNew(resolved: Outcome, who: Identity, sidecar: Sidecar, claim: Claim, now: int)
      returns (o: Outcome, installed: bool)
      requires Valid() && Staged(who.name, sidecar) && Known(who.name)
               && (resolved == Done ==> claim.status != Duplicate)
      modifies this`files, store, faults
      ensures Valid() && Aside(old(files), files, old(store.tables), store.tables)
      ensures installed ==>
                && resolved == o == Done && store.tables == old(store.tables) && claim.status != Conflict
                && Holds(files, AcceptedMedia(sidecar.digest), sidecar.digest)
                && (old(Clean(faults.ahead)) ==> Clean(faults.ahead))
      ensures old(Clean(faults.ahead)) && resolved == Done ==>
                Obeys(ClaimVerdict(who, sidecar, old(files), maxSegmentBytes, claim), installed, store.tables.ingest)
    {
      installed := false;
      var staging := Staging(who.name);
      if resolved != Done {
        o := RecordFailure(resolved, Report(who, Failed, DatabaseFailed, Some(staging), 0), now);
      } else if claim.status == Conflict {
        o := Quarantine(who, Some(staging), if claim.digest != Some(sidecar.digest) then IdempotencyConflict
            else MetadataConflict, now);
      } else {
        o := InstallAccepted(staging, sidecar.size, sidecar.digest);
        FilesSurvive(store.tables.segments, old(files), files, removed);
        if o != Done {
          o := RecordFailure(o, Report(who, Failed, FailureCode(o), Some(staging), 0), now);
        } else {
          installed := true;
        }
      }
    }

    /** A duplicate needs its file verified, or put back where it belongs. */
    method PlaceDuplicate(who: Identity, sidecar: Sidecar, metadata: Metadata, claim: Claim, now: int)
      returns (o: Outcome, placed: Option<(Claim, Path)>)
      requires Valid() && Staged(who.name, sidecar) && who == SidecarIdentity(who.name, sidecar) && Known(who.name)
      requires claim == Resolve(store.tables, sidecar.collector, sidecar.sourceKey, sidecar.digest, metadata)
               && claim.status == Duplicate
      modifies this`files, store, faults
      ensures Valid() && Keeps(old(files), files, old(store.tables), store.tables)
              && store.tables.segments == old(store.tables.segments)
      ensures ClaimKept(old(store.tables), store.tables, sidecar.collector, sidecar.sourceKey, sidecar.digest, metadata)
      ensures placed.Some? ==>
                && o == Done && store.tables == old(store.tables)
                && placed.value.0 == claim && claim.path == Some(placed.value.1) && placed.value.1.AcceptedMedia?
                && Holds(files, placed.value.1, sidecar.digest)
                && (old(Clean(faults.ahead)) ==> Clean(faults.ahead))
      ensures old(Clean(faults.ahead)) ==>
                Obeys(ClaimVerdict(who, sidecar, old(files), maxSegmentBytes, claim), placed.Some?, store.tables.ingest)
    {
      placed := None;
      var path := claim.path.value;
      assert HasFile(store.tables.segments[claim.segmentId - 1], files, removed);
      o := faults.Next();
      if o == Crash { return; }
      if o != Done || !Fits(files, path, sidecar.size, sidecar.digest) {
        var restored;
        o, restored := Reinstall(who, sidecar, metadata, claim, now);
        if !restored { return; }
      }
      ghost var before := files;
      var alive := DropCopy(Staging(who.name));
      MediaKeptTransitive(old(files), before, files);
      if !alive { o := Crash; return; }
      placed := Some((claim, path));
    }

    /** Removes a staged copy that is not needed; an error is ignored. */
    method DropCopy(staging: Path) returns (alive: bool)
      requires Valid() && staging.Staging?
      modifies this`files, faults
      ensures Valid() && MediaKept(old(files), files)
      ensures old(Clean(faults.ahead)) ==> alive && Clean(faults.ahead)
    {
      var dropped := faults.Next();
      alive := dropped != Crash;
      if dropped == Done { files := files - {staging}; }
      FilesSurvive(store.tables.segments, old(files), files, removed);
    }

    /** Puts a missing file back; a file that is there but does not verify is recorded and left alone. */
    method Reinstall(who: Identity, sidecar: Sidecar, metadata: Metadata, claim: Claim, now: int)
      returns (o: Outcome, restored: bool)
      requires Valid() && Staged(who.name, sidecar) && who == SidecarIdentity(who.name, sidecar) && Known(who.name)
      requires claim == Resolve(store.tables, sidecar.collector, sidecar.sourceKey, sidecar.digest, metadata)
               && claim.status == Duplicate
      requires claim.path.value.AcceptedMedia?
      modifies this`files, store, faults
      ensures Valid() && Keeps(old(files), files, old(store.tables), store.tables)
              && store.tables.segments == old(store.tables.segments)
      ensures ClaimKept(old(store.tables), store.tables, sidecar.collector, sidecar.sourceKey, sidecar.digest, metadata)
      ensures restored ==>
                && o == Done && Holds(files, claim.path.value, sidecar.digest)
                && store.tables == old(store.tables) && (old(Clean(faults.ahead)) ==> Clean(faults.ahead))
      ensures old(Clean(faults.ahead)) ==>
                && (restored <==> old(claim.path.value !in files) && claim.path.value == AcceptedMedia(sidecar.digest))
                && (!restored ==> Says(store.tables.ingest, ClaimFailure(who, StorageFailed, claim)))
    {
      restored := false;
      var staging := Staging(who.name);
      var path := claim.path.value;
      if path in files || path != AcceptedMedia(sidecar.digest) {
        o := RecordOnClaim(Fails, who, sidecar, metadata, claim, now);
      } else {
        o := InstallAccepted(staging, sidecar.size, sidecar.digest);
        FilesSurvive(store.tables.segments, old(files), files, removed);
        if o != Done {
          o := RecordOnClaim(o, who, sidecar, metadata, claim, now);
        } else {
          restored := true;
        }
      }
    }

    static function ClaimFailure(who: Identity, code: Code, claim: Claim): Report {
      Report(who, Failed, code, Some(Staging(who.name)), claim.segmentId)
    }

    /** A failure recorded with the segment of the duplicate. */
    method RecordOnClaim(cause: Outcome, who: Identity, sidecar: Sidecar, metadata: Metadata, claim: Claim, now: int)
      returns (o: Outcome)
      requires Valid() && who == SidecarIdentity(who.name, sidecar) && Known(who.name)
      requires claim == Resolve(store.tables, sidecar.collector, sidecar.sourceKey, sidecar.digest, metadata)
               && claim.status == Duplicate
      modifies store, faults
      ensures Valid() && TablesKept(old(store.tables), store.tables)
              && store.tables.segments == old(store.tables.segments)
      ensures ClaimKept(old(store.tables), store.tables, sidecar.collector, sidecar.sourceKey, sidecar.digest, metadata)
      ensures old(Clean(faults.ahead)) && cause != Crash ==>
                Says(store.tables.ingest, ClaimFailure(who, FailureCode(cause), claim))
    {
      var failure := ClaimFailure(who, FailureCode(cause), claim);
      ResolvedMayCarry(store.tables, EventOf(failure, now), sidecar.digest, metadata);
      OwnEventKeepsClaim(store.tables, EventOf(failure, now), sidecar.digest, metadata);
      o := RecordFailure(cause, failure, now);
    }

    /** Commits the segment; whatever is cut off afterwards, the committed tables hold. */
    method CommitSegment(name: string, sidecar: Sidecar, metadata: Metadata, claim: Claim, path: Path, now: int)
      returns (o: Outcome, segmentId: nat)
      requires Valid() && path.AcceptedMedia? && Holds(files, path, sidecar.digest)
               && sidecar.size == |sidecar.digest.contents|
      requires claim == Resolve(store.tables, sidecar.collector, sidecar.sourceKey, sidecar.digest, metadata)
               && claim.status != Conflict
      requires claim.status == NoClaim ==> path == AcceptedMedia(sidecar.digest)
      requires claim.status == Duplicate ==> claim.path == Some(path)
      requires Says(store.tables.ingest, ValidatedReport(SidecarIdentity(name, sidecar)))
      modifies store, faults
      ensures Valid() && TablesKept(old(store.tables), store.tables)
      ensures store.tables.segments == old(store.tables.segments)
              || (claim.status == NoClaim && store.tables.segments
                  == old(store.tables.segments) + [SegmentOf(sidecar, metadata, path)])
      ensures ClaimKept(old(store.tables), store.tables, sidecar.collector, sidecar.sourceKey, sidecar.digest, metadata)
      ensures store.tables.segments != old(store.tables.segments) ==>
                Resolve(store.tables, sidecar.collector, sidecar.sourceKey, sidecar.digest, metadata).status
                    == Duplicate
      ensures o == Done ==>
                && NamesSegment(store.tables, Confirmation(sidecar, segmentId, metadata))
                && AcceptedAs(store.tables, files, SidecarIdentity(name, sidecar),
                    Confirmation(sidecar, segmentId, metadata))
                && (claim.status == NoClaim <==> |store.tables.segments| == |old(store.tables.segments)| + 1)
      ensures old(Clean(faults.ahead)) ==> o == Done && Clean(faults.ahead)
    {
      var segment := SegmentOf(sidecar, metadata, path);
      var who := SidecarIdentity(name, sidecar);
      var event := EventOf(Report(who, Accepted, NoError, Some(path), claim.segmentId), now);
      AcceptanceAnnounced(store.tables, files, segment, who, event, now, Confirmation(sidecar, 0, metadata));
      AcceptanceNames(store.tables, segment, event, now, Confirmation(sidecar, 0, metadata));
      AcceptanceKeepsClaim(store.tables, segment, event, now);
      var granted;
      ghost var r;
      granted, o, r := store.AcceptMedia(segment, event, now);
      CommitKeepsHolding(old(store.tables), store.tables, segment);
      ConfirmationsSurvive(old(store.tables), store.tables, confirmations);
      segmentId := granted.segmentId;
    }

    /** `writeAtomicFile` beside the source: the old confirmation goes before the new one arrives. */
    method Confirm(name: string, confirmation: Confirmation) returns (o: Outcome)
      requires Valid() && NamesSegment(store.tables, confirmation)
      modifies this`confirmations, faults
      ensures Valid()
      ensures o == Done ==> confirmations == old(confirmations)[name := confirmation]
      ensures confirmations - {name} == old(confirmations) - {name}
      ensures old(Clean(faults.ahead)) ==> o == Done
    {
      o := faults.Next();
      if o != Done { return; }
      ConfirmationReplaced(store.tables, confirmations, name, confirmation);
      confirmations := confirmations - {name};
      o := faults.Next();
      if o == Done {
        confirmations := confirmations[name := confirmation];
      }
    }

    lemma CommitKeepsHolding(before: Tables, after: Tables, segment: Segment)
      requires AllHaveFiles(before.segments, files, removed)
      requires HasFile(segment, files, removed)
      requires after.segments == before.segments || after.segments == before.segments + [segment]
      ensures AllHaveFiles(after.segments, files, removed)
    {
    }

    function SegmentOf(sidecar: Sidecar, metadata: Metadata, path: Path): Segment {
      Segment(sidecar.collector, sidecar.sourceKey, path, sidecar.details, sidecar.size, sidecar.digest, metadata)
    }

    /** From the marker to a validated copy. */
    function CopyVerdict(name: string, seen: Observed): Verdict
      reads this
    {
      var early := EarlyVerdict(name, seen);
      if early.Pass? then
        var sidecar := sidecars[name].sidecar;
        ContentVerdict(SidecarIdentity(name, sidecar), sidecar, sources[name], files, maxSegmentBytes, seen.probed)
      else early
    }

    /** What a fault-free attempt comes to. */
    function VerdictOf(name: string, seen: Observed): Verdict
      reads this, store
    {
      var copy := CopyVerdict(name, seen);
      if copy.Pass? then
        var sidecar := sidecars[name].sidecar;
        ClaimVerdict(SidecarIdentity(name, sidecar), sidecar, files, maxSegmentBytes, ClaimOf(name, seen.probed.probe))
      else copy
    }

    /** The marker's latest row accepts the confirmed segment, whose file is there. */
    ghost predicate Announced(name: string)
      reads this, store
    {
      SoundAt(name) && name in confirmations
          && AcceptedAs(store.tables, files, SidecarIdentity(name, sidecars[name].sidecar), confirmations[name])
    }

    /** From the marker to a validated copy in staging. */
    method Validate(name: string, seen: Observed, now: int) returns (o: Outcome, validated: bool)
      requires Valid()
      modifies this`files, store, faults
      ensures Valid() && Aside(old(files), files, old(store.tables), store.tables)
      ensures SoundAt(name) && Passes(seen.probed) ==>
                ClaimOf(name, seen.probed.probe) == old(ClaimOf(name, seen.probed.probe))
      ensures validated ==>
                && o == Done && SoundAt(name) && Passes(seen.probed)
                && Staged(name, sidecars[name].sidecar) && OnlyAt(old(files), files, Staging(name))
                && Says(store.tables.ingest, ValidatedReport(SidecarIdentity(name, sidecars[name].sidecar)))
                && (old(Clean(faults.ahead)) ==> Clean(faults.ahead))
      ensures old(Clean(faults.ahead)) ==> Obeys(old(CopyVerdict(name, seen)), validated, store.tables.ingest)
    {
      validated := false;
      var ready, metadata;
      o, ready := Prepare(name, seen, now);
      ghost var prepared := store.tables;
      if ready.Some? {
        o, metadata := Stage(name, ready.value, seen.probed, now);
        validated := metadata.Some?;
        AsideTransitive(old(files), old(files), files, old(store.tables), prepared, store.tables);
      }
      if SoundAt(name) && Passes(seen.probed) {
        var sidecar := sidecars[name].sidecar;
        PlainGrowthKeepsClaim(old(store.tables), store.tables, sidecar.collector, sidecar.sourceKey, sidecar.digest,
            MetadataOf(sidecar, seen.probed.probe));
      }
    }

    /** The protocol, with what becomes of the claim of a sound source. */
    method Attempt(name: string, seen: Observed, now: int)
      returns (accepted: bool, o: Outcome, ghost was: Claim, ghost becomes: Claim)
      requires Valid()
      modifies this`files, this`confirmations, store, faults
      ensures Valid() && Keeps(old(files), files, old(store.tables), store.tables)
      ensures |store.tables.segments| <= |old(store.tables.segments)| + 1
      ensures accepted ==> o == Done && Passes(seen.probed) && Confirmed(name, seen.probed.probe)
      ensures SoundAt(name) && Passes(seen.probed) ==>
                && was == old(ClaimOf(name, seen.probed.probe)) && becomes == ClaimOf(name, seen.probed.probe)
                && ClaimMayBecome(was, becomes, sidecars[name].sidecar.digest)
                && (store.tables.segments != old(store.tables.segments) ==>
                    was.status != Duplicate && becomes.status == Duplicate)
      ensures accepted ==> Announced(name)
      ensures !Passes(seen.probed) ==> PlainGrowth(old(store.tables), store.tables)
      ensures old(Clean(faults.ahead)) ==> Obeys(old(VerdictOf(name, seen)), accepted, store.tables.ingest)
    {
      accepted := false;
      was := if SoundAt(name) && Passes(seen.probed) then ClaimOf(name, seen.probed.probe) else NO_CLAIM;
      ghost var verdict, copy := VerdictOf(name, seen), CopyVerdict(name, seen);
      var validated;
      o, validated := Validate(name, seen, now);
      becomes := was;
      if validated {
        ghost var files1, tables1 := files, store.tables;
        VerdictAfterCopy(old(files), files, SidecarIdentity(name, sidecars[name].sidecar), sidecars[name].sidecar,
            maxSegmentBytes, was);
        o, accepted, becomes := Finish(name, seen.probed.probe, now);
        KeepsTransitive(old(files), files1, files, old(store.tables), tables1, store.tables);
      }
    }

    /** From the validated copy to the confirmation. */
    method Finish(name: string, probe: Probe, now: int) returns (o: Outcome, accepted: bool, ghost becomes: Claim)
      requires Valid() && SoundAt(name) && Staged(name, sidecars[name].sidecar)
      requires Says(store.tables.ingest, ValidatedReport(SidecarIdentity(name, sidecars[name].sidecar)))
      modifies this`files, this`confirmations, store, faults
      ensures Valid() && Keeps(old(files), files, old(store.tables), store.tables)
      ensures |store.tables.segments| <= |old(store.tables.segments)| + 1
      ensures accepted ==> o == Done && Confirmed(name, probe) && Announced(name)
      ensures becomes == ClaimOf(name, probe)
              && ClaimMayBecome(old(ClaimOf(name, probe)), becomes, sidecars[name].sidecar.digest)
      ensures store.tables.segments != old(store.tables.segments) ==>
                old(ClaimOf(name, probe)).status != Duplicate && becomes.status == Duplicate
      ensures old(Clean(faults.ahead)) ==>
                Obeys(ClaimVerdict(SidecarIdentity(name, sidecars[name].sidecar), sidecars[name].sidecar, old(files),
                                   maxSegmentBytes, old(ClaimOf(name, probe))),
                      accepted, store.tables.ingest)
    {
      var sidecar := sidecars[name].sidecar;
      o, accepted := PlaceAndCommit(name, sidecar, MetadataOf(sidecar, probe), now);
      becomes := ClaimOf(name, probe);
    }

    /** The accepted file, then the acceptance and its confirmation. */
    method PlaceAndCommit(name: string, sidecar: Sidecar, metadata: Metadata, now: int)
      returns (o: Outcome, accepted: bool)
      requires Valid() && Staged(name, sidecar) && Known(name)
      requires Says(store.tables.ingest, ValidatedReport(SidecarIdentity(name, sidecar)))
      modifies this`files, this`confirmations, store, faults
      ensures Valid() && Keeps(old(files), files, old(store.tables), store.tables)
      ensures |store.tables.segments| <= |old(store.tables.segments)| + 1
      ensures ClaimKept(old(store.tables), store.tables, sidecar.collector, sidecar.sourceKey, sidecar.digest, metadata)
      ensures store.tables.segments != old(store.tables.segments) ==>
                && Resolve(old(store.tables), sidecar.collector, sidecar.sourceKey, sidecar.digest, metadata).status
                    != Duplicate
                && Resolve(store.tables, sidecar.collector, sidecar.sourceKey, sidecar.digest, metadata).status
                    == Duplicate
      ensures accepted ==>
                && o == Done
                && name in confirmations && confirmations[name].sidecar == sidecar
                && confirmations[name].metadata == metadata
                && AcceptedAs(store.tables, files, SidecarIdentity(name, sidecar), confirmations[name])
      ensures old(Clean(faults.ahead)) ==>
                Obeys(ClaimVerdict(SidecarIdentity(name, sidecar), sidecar, old(files), maxSegmentBytes,
                                   Resolve(old(store.tables), sidecar.collector, sidecar.sourceKey, sidecar.digest,
                                           metadata)),
                      accepted, store.tables.ingest)
    {
      accepted := false;
      var placed;
      o, placed := Place(name, sidecar, metadata, now);
      if placed.Some? {
        o := CommitAndConfirm(name, sidecar, metadata, placed.value.0, placed.value.1, now);
        accepted := o == Done;
      }
    }

    /**
     One marker from discovery to confirmation. Wherever it is cut, nothing committed is lost and the inbox is
     untouched. An accepted source has its confirmation, naming the one segment that holds its content. A sound source
     whose claim nobody contests stays so. Without faults a source is accepted exactly when nothing observed stands in
     the way, it is sound and its claim is not contested; otherwise its verdict is the last thing logged about it.
     */
    method ProcessReady(name: string, seen: Observed, now: int) returns (accepted: bool, o: Outcome)
      requires Valid()
      modifies this`files, this`confirmations, store, faults
      ensures Valid() && Keeps(old(files), files, old(store.tables), store.tables)
      ensures |store.tables.segments| <= |old(store.tables.segments)| + 1
      ensures accepted ==> o == Done && Passes(seen.probed) && Confirmed(name, seen.probed.probe) && Announced(name)
      ensures old(Clean(faults.ahead)) ==> Obeys(old(VerdictOf(name, seen)), accepted, store.tables.ingest)
      ensures old(Clean(faults.ahead)) ==> (accepted <==> Favourable(seen) && old(Uncontested(name, seen.probed.probe)))
      ensures !Passes(seen.probed) ==> PlainGrowth(old(store.tables), store.tables)
      ensures Passes(seen.probed) && old(Uncontested(name, seen.probed.probe)) ==>
                && Uncontested(name, seen.probed.probe)
                && (old(ClaimOf(name, seen.probed.probe)).status == Duplicate ==>
                      store.tables.segments == old(store.tables.segments)
                          && ClaimOf(name, seen.probed.probe).status == Duplicate)
                && (store.tables.segments != old(store.tables.segments) ==>
                    ClaimOf(name, seen.probed.probe).status == Duplicate)
    {
      VerdictPassesIff(name, seen);
      ghost var was, becomes;
      accepted, o, was, becomes := Attempt(name, seen, now);
    }

    /** The verdict in terms of what a caller can see: nothing in the way, a sound source, and nobody else's claim. */
    lemma VerdictPassesIff(name: string, seen: Observed)
      requires Valid()
      ensures VerdictOf(name, seen).Pass? <==> Favourable(seen) && Uncontested(name, seen.probed.probe)
    {
      if SoundAt(name) && Passes(seen.probed) && ClaimOf(name, seen.probed.probe).status != Conflict {
        var sidecar := sidecars[name].sidecar;
        UncontestedIsPlaceable(store.tables, files, removed, sidecar.collector, sidecar.sourceKey, sidecar.digest,
                               MetadataOf(sidecar, seen.probed.probe));
      }
    }

    /** A sidecar is there, parsed, and the source is sound. */
    predicate SoundAt(name: string)
      reads this
    {
      name in sidecars && sidecars[name].Parsed? && Sound(name, sidecars[name].sidecar)
    }

    /**
     After any cut, a calm second attempt on a sound source whose claim is not contested accepts it exactly when nothing
     it observes stands in the way: the source has stopped growing and no quarantine of it is remembered. Both attempts
     make at most one segment. The prober may have been missing at first.
     */
    method CutThenRerun(
        name: string, cut: seq<Outcome>, seen: Observed, again: Observed, probe: Probe, now: int, later: int)
      returns (accepted: bool)
      requires Valid() && Uncontested(name, probe) && Passes(Probed(probe))
      requires seen.probed == Probed(probe) || seen.probed.ProbeMissing?
      requires again.probed == Probed(probe)
      modifies this`files, this`confirmations, store, faults
      ensures Valid() && Keeps(old(files), files, old(store.tables), store.tables)
      ensures accepted <==> Favourable(again)
      ensures accepted ==> Confirmed(name, probe) && AcceptedMedia(sidecars[name].sidecar.digest) in files
      ensures |store.tables.segments| <= |old(store.tables.segments)| + 1
      ensures old(ClaimOf(name, probe)).status == Duplicate ==> store.tables.segments == old(store.tables.segments)
    {
      faults.ahead := cut;
      var first, o := ProcessReady(name, seen, now);
      ghost var files1, tables1 := files, store.tables;
      if !Passes(seen.probed) {
        var sidecar := sidecars[name].sidecar;
        PlainGrowthKeepsClaim(old(store.tables), store.tables, sidecar.collector, sidecar.sourceKey, sidecar.digest,
            MetadataOf(sidecar, probe));
      }
      accepted := Rerun(name, again, probe, later);
      KeepsTransitive(old(files), files1, files, old(store.tables), tables1, store.tables);
    }

    /** An attempt without faults. */
    method Rerun(name: string, seen: Observed, probe: Probe, now: int) returns (accepted: bool)
      requires Valid() && Uncontested(name, probe) && Passes(Probed(probe)) && seen.probed == Probed(probe)
      modifies this`files, this`confirmations, store, faults
      ensures Valid() && Keeps(old(files), files, old(store.tables), store.tables)
      ensures accepted <==> Favourable(seen)
      ensures accepted ==> Confirmed(name, probe) && AcceptedMedia(sidecars[name].sidecar.digest) in files
      ensures |store.tables.segments| <= |old(store.tables.segments)| + 1
      ensures old(ClaimOf(name, probe)).status == Duplicate ==> store.tables.segments == old(store.tables.segments)
    {
      faults.ahead := [];
      var o;
      accepted, o := ProcessReady(name, seen, now);
      if accepted {
        assert HasFile(store.tables.segments[confirmations[name].segmentId - 1], files, removed);
      }
    }

    /**
     A source whose segment was deleted by retention is delivered again: when it is accepted its file is back, and the
     segment's latest state row still says what it said.
     */
    method Redeliver(name: string, seen: Observed, probe: Probe, now: int) returns (accepted: bool)
      requires Valid() && Uncontested(name, probe) && Passes(Probed(probe)) && seen.probed == Probed(probe)
      requires ClaimOf(name, probe).status == Duplicate
      modifies this`files, this`confirmations, store, faults
      ensures Valid() && (accepted <==> Favourable(seen))
      ensures accepted ==> AcceptedMedia(sidecars[name].sidecar.digest) in files
      ensures store.tables.segments == old(store.tables.segments) && store.tables.states == old(store.tables.states)
    {
      accepted := Rerun(name, seen, probe, now);
    }

    /** The source is sound and its confirmation describes it. */
    predicate Confirmed(name: string, probe: Probe)
      reads this
    {
      && SoundAt(name)
      && name in confirmations && confirmations[name].sidecar == sidecars[name].sidecar
      && confirmations[name].metadata == MetadataOf(sidecars[name].sidecar, probe)
    }

    /** The acceptance, then the confirmation. */
    method CommitAndConfirm(name: string, sidecar: Sidecar, metadata: Metadata, claim: Claim, path: Path, now: int)
      returns (o: Outcome)
      requires Valid() && path.AcceptedMedia? && Holds(files, path, sidecar.digest)
               && sidecar.size == |sidecar.digest.contents|
      requires claim == Resolve(store.tables, sidecar.collector, sidecar.sourceKey, sidecar.digest, metadata)
               && claim.status != Conflict
      requires claim.status == NoClaim ==> path == AcceptedMedia(sidecar.digest)
      requires claim.status == Duplicate ==> claim.path == Some(path)
      requires Says(store.tables.ingest, ValidatedReport(SidecarIdentity(name, sidecar)))
      modifies this`confirmations, store, faults
      ensures Valid() && TablesKept(old(store.tables), store.tables)
      ensures |store.tables.segments| <= |old(store.tables.segments)| + 1
      ensures ClaimKept(old(store.tables), store.tables, sidecar.collector, sidecar.sourceKey, sidecar.digest, metadata)
      ensures store.tables.segments != old(store.tables.segments) ==>
                && claim.status != Duplicate
                && Resolve(store.tables, sidecar.collector, sidecar.sourceKey, sidecar.digest, metadata).status
                    == Duplicate
      ensures o == Done ==>
                && name in confirmations && confirmations[name].sidecar == sidecar
                    && confirmations[name].metadata == metadata
                && AcceptedAs(store.tables, files, SidecarIdentity(name, sidecar), confirmations[name])
      ensures old(Clean(faults.ahead)) ==> o == Done
    {
      var segmentId;
      o, segmentId := CommitSegment(name, sidecar, metadata, claim, path, now);
      if o == Done {
        o := Confirm(name, Confirmation(sidecar, segmentId, metadata));
      }
    }

    /** The claim a sound source will make. */
    function ClaimOf(name: string, probe: Probe): Claim
      requires SoundAt(name)
      reads this, store
    {
      var sidecar := sidecars[name].sidecar;
      Resolve(store.tables, sidecar.collector, sidecar.sourceKey, sidecar.digest, MetadataOf(sidecar, probe))
    }

    /** A sound source whose claim nobody contests. */
    predicate Uncontested(name: string, probe: Probe)
      reads this, store
    {
      SoundAt(name) && ClaimOf(name, probe).status != Conflict
    }
  }

  // ----- runs -----

  /** What happens to the system: a marker is processed, a device writes the inbox, retention removes a file, or a
      restart. */
  datatype Step =
    | Process(name: string, seen: Observed, now: int)
    | Deliver(name: string, source: Bytes, sidecar: SidecarFile)
    | Remove(path: Path)
    | Restart

  /** The paths that the first `n` steps remove. */
  ghost function RemovedBy(steps: seq<Step>, n: nat): set<Path>
    requires n <= |steps|
  {
    set i | 0 <= i < n && steps[i].Remove? :: steps[i].path
  }

  /**
   Every reachable state is valid, under any faults: each segment has its file unless a step removed just that one. A
   step makes at most one segment, and only the processing of a marker makes one.
   */
  method Run(manager: Manager, steps: seq<Step>)
    requires manager.Valid()
    modifies manager, manager.store, manager.faults
    ensures manager.Valid() && Extends(old(manager.store.tables), manager.store.tables)
    ensures manager.removed == old(manager.removed) + RemovedBy(steps, |steps|)
    ensures |manager.store.tables.segments| <= |old(manager.store.tables.segments)| + Processed(steps, |steps|)
  {
    for k := 0 to |steps|
      invariant manager.Valid() && Extends(old(manager.store.tables), manager.store.tables)
      invariant manager.removed == old(manager.removed) + RemovedBy(steps, k)
      invariant |manager.store.tables.segments| <= |old(manager.store.tables.segments)| + Processed(steps, k)
    {
      RunStep(manager, steps[k]);
      RemovedByOneMore(steps, k);
    }
  }

  lemma RemovedByOneMore(steps: seq<Step>, k: nat)
    requires k < |steps|
    ensures RemovedBy(steps, k + 1) == RemovedBy(steps, k) + if steps[k].Remove? then {steps[k].path} else {}
  {
  }

  /** How many of the first `n` steps process a marker. */
  ghost function Processed(steps: seq<Step>, n: nat): nat
    requires n <= |steps|
  {
    if n == 0 then 0 else Processed(steps, n - 1) + if steps[n - 1].Process? then 1 else 0
  }

  method RunStep(manager: Manager, step: Step)
    requires manager.Valid()
    modifies manager, manager.store, manager.faults
    ensures manager.Valid() && Extends(old(manager.store.tables), manager.store.tables)
    ensures manager.removed == old(manager.removed) + if step.Remove? then {step.path} else {}
    ensures |manager.store.tables.segments| <= |old(manager.store.tables.segments)| + if step.Process? then 1 else 0
  {
    match step
    case Process(name, seen, now) =>
      var accepted, o := manager.ProcessReady(name, seen, now);
    case Deliver(name, source, sidecar) =>
      manager.sources, manager.sidecars := manager.sources[name := source], manager.sidecars[name := sidecar];
    case Remove(path) =>
      manager.Lose(path);
    case Restart =>
      var o := manager.store.RebuildMediaProjections();
  }
}
