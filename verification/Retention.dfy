/**
 Retention (internal/operations/manager.go, internal/eventstore/operations.go): plan, remove, commit, over the accepted
 files and three append-only logs. A segment's id is its position, counted from one.
 */
module Retention {
  import opened Faults
  import MediaTypes
  import opened Options
  import opened Ordering
  import opened Projections

  type Contents = MediaTypes.Bytes
  type Digest = MediaTypes.Digest

  /** What retention reads of a segment. */
  datatype ManagedFile = ManagedFile(path: string, digest: Digest, size: nat, createdAt: int)

  datatype RetentionStatus = Planned | Deleted | Failed
  datatype RetentionRow = RetentionRow(status: RetentionStatus, at: int)
  type RetentionLog = seq<LogRow<nat, RetentionRow>>

  datatype MediaState = Accepted | Missing | Restored | RetentionDeleted
  datatype StateRow = StateRow(status: MediaState, at: int)
  type ShownLog = seq<LogRow<nat, StateRow>>

  /** An entry of the full-backup manifest. */
  datatype Coverage = Coverage(backupPath: string, digest: Digest, size: nat)

  // ----- the logs -----

  /** `AppendRetentionEvent`: the event key holds every field, so an identical row is dropped. */
  function AppendRow(rows: RetentionLog, id: nat, row: RetentionRow): (r: RetentionLog)
    ensures rows <= r
  {
    if LogRow(id, row) in rows then rows else rows + [LogRow(id, row)]
  }

  /** The key of a deletion has no time: a segment has at most one such row. */
  predicate HasDeletion(rows: RetentionLog, id: nat) {
    exists i :: 0 <= i < |rows| && rows[i].key == id && rows[i].value.status == Deleted
  }

  function AppendDeletion(rows: RetentionLog, id: nat, at: int): (r: RetentionLog)
    ensures rows <= r
  {
    if HasDeletion(rows, id) then rows else rows + [LogRow(id, RetentionRow(Deleted, at))]
  }

  /** The id of the segment's `retention_deleted` state row; zero when there is none. */
  function DeletedState(states: ShownLog, id: nat): (row: nat)
    ensures row <= |states|
    ensures row > 0 ==> states[row - 1].key == id && states[row - 1].value.status == RetentionDeleted
    ensures row == 0 ==> forall i :: 0 <= i < |states| ==>
              !(states[i].key == id && states[i].value.status == RetentionDeleted)
  {
    if |states| == 0 then 0
    else
      var n := |states| - 1;
      var earlier := DeletedState(states[..n], id);
      if earlier > 0 then earlier
      else if states[n].key == id && states[n].value.status == RetentionDeleted then n + 1 else 0
  }

  function AppendDeletedState(states: ShownLog, id: nat, at: int): (r: ShownLog)
    ensures states <= r
  {
    if DeletedState(states, id) > 0 then states else states + [LogRow(id, StateRow(RetentionDeleted, at))]
  }

  predicate LatestIs(rows: RetentionLog, id: nat, status: RetentionStatus) {
    var last := Latest(rows, id);
    last > 0 && rows[last - 1].value.status == status
  }

  /** `RetentionDeletionPlanned`: the latest retention row is a plan. */
  predicate PlannedBefore(rows: RetentionLog, id: nat) {
    LatestIs(rows, id, Planned)
  }

  /** Every deletion directly follows a plan for the same segment. */
  ghost predicate DeletionsFollowPlans(rows: RetentionLog) {
    forall i :: 0 <= i < |rows| && rows[i].value.status == Deleted ==> PlannedBefore(rows[..i], rows[i].key)
  }

  /** The two deletion logs go together. */
  ghost predicate DeletionsAgree(rows: RetentionLog, states: ShownLog) {
    forall id {:trigger HasDeletion(rows, id)} :: HasDeletion(rows, id) <==> DeletedState(states, id) > 0
  }

  ghost predicate NotAfter(rows: RetentionLog, clock: int) {
    forall i :: 0 <= i < |rows| ==> rows[i].value.at <= clock
  }

  /** With an advancing clock a plan is always a new row, and the latest. */
  lemma PlanIsLatest(rows: RetentionLog, id: nat, at: int, clock: int)
    requires NotAfter(rows, clock) && clock < at
    ensures AppendRow(rows, id, RetentionRow(Planned, at)) == rows + [LogRow(id, RetentionRow(Planned, at))]
    ensures PlannedBefore(AppendRow(rows, id, RetentionRow(Planned, at)), id)
  {
  }

  lemma AppendKeepsFollowing(rows: RetentionLog, id: nat, row: RetentionRow)
    requires DeletionsFollowPlans(rows) && (row.status == Deleted ==> PlannedBefore(rows, id))
    ensures DeletionsFollowPlans(rows + [LogRow(id, row)])
  {
    var more := rows + [LogRow(id, row)];
    forall i | 0 <= i < |more| && more[i].value.status == Deleted
      ensures PlannedBefore(more[..i], more[i].key)
    {
      assert more[..i] == if i < |rows| then rows[..i] else rows;
      assert i < |rows| ==> more[i] == rows[i];
    }
  }

  lemma AppendDeletionHas(rows: RetentionLog, id: nat, at: int, other: nat)
    ensures HasDeletion(AppendDeletion(rows, id, at), other) <==> other == id || HasDeletion(rows, other)
  {
    var more := AppendDeletion(rows, id, at);
    if HasDeletion(rows, other) {
      var i :| 0 <= i < |rows| && rows[i].key == other && rows[i].value.status == Deleted;
      assert more[i] == rows[i];
    }
    if HasDeletion(more, other) && other != id {
      var i :| 0 <= i < |more| && more[i].key == other && more[i].value.status == Deleted;
      assert more[i] == rows[i];
    }
    if more != rows {
      assert more[|rows|].key == id;
    }
  }

  lemma DeletedStateAppended(states: ShownLog, id: nat, row: StateRow, other: nat)
    ensures DeletedState(states + [LogRow(id, row)], other) ==
            if DeletedState(states, other) > 0 then DeletedState(states, other)
            else if other == id && row.status == RetentionDeleted then |states| + 1 else 0
  {
  }

  /** A plan or a failure is not a deletion. */
  lemma OtherRowIsNoDeletion(rows: RetentionLog, id: nat, row: RetentionRow, other: nat)
    requires row.status != Deleted
    ensures HasDeletion(rows + [LogRow(id, row)], other) <==> HasDeletion(rows, other)
  {
    var more := rows + [LogRow(id, row)];
    if HasDeletion(rows, other) {
      var i :| 0 <= i < |rows| && rows[i].key == other && rows[i].value.status == Deleted;
      assert more[i] == rows[i];
    }
    if HasDeletion(more, other) {
      var i :| 0 <= i < |more| && more[i].key == other && more[i].value.status == Deleted;
      assert more[i] == rows[i];
    }
  }

  // ----- the state projection -----

  predicate ShowsDeleted(status: map<nat, Entry<StateRow>>, id: nat) {
    id in status && status[id].value.status == RetentionDeleted
  }

  /** Once a deletion is in the log, the projection shows it or something later. */
  ghost predicate DeletionsSeen(states: ShownLog, status: map<nat, Entry<StateRow>>) {
    forall id {:trigger DeletedState(states, id)} :: DeletedState(states, id) > 0 ==> SeenIn(states, status, id)
  }

  /** The state part of the committing transaction. */
  function CommitState(
      states: ShownLog, status: map<nat, Entry<StateRow>>, id: nat, at: int): (ShownLog, map<nat, Entry<StateRow>>)
  {
    var more := AppendDeletedState(states, id, at);
    (more, Apply(more, status, DeletedState(more, id)))
  }

  lemma CommitStateKeeps(states: ShownLog, status: map<nat, Entry<StateRow>>, id: nat, at: int)
    requires Grounded(states, status) && DeletionsSeen(states, status)
    ensures var (more, shown) := CommitState(states, status, id, at);
            Grounded(more, shown) && DeletionsSeen(more, shown)
    ensures var (more, shown) := CommitState(states, status, id, at);
            StatusAbout(id, status, shown)
  {
    var more := AppendDeletedState(states, id, at);
    GroundedGrows(states, more, status);
    ApplyGrounded(more, status, DeletedState(more, id));
    AppendedDeletedState(states, id, at, id);
    forall other | DeletedState(more, other) > 0
      ensures SeenIn(more, Apply(more, status, DeletedState(more, id)), other)
    {
      AppendedDeletedState(states, id, at, other);
      assert DeletedState(states, other) > 0 ==> SeenIn(states, status, other);
    }
  }

  ghost predicate SeenIn(states: ShownLog, status: map<nat, Entry<StateRow>>, id: nat) {
    id in status && status[id].lastId >= DeletedState(states, id)
  }

  lemma AppendedDeletedState(states: ShownLog, id: nat, at: int, other: nat)
    ensures var more := AppendDeletedState(states, id, at);
            DeletedState(more, other) == if DeletedState(states, other) > 0 || other != id then DeletedState(states,
                other) else |more|
    ensures DeletedState(AppendDeletedState(states, id, at), id) > 0
  {
  }

  /** A segment that is shown as present becomes shown as deleted if and only if retention never deleted it before. */
  lemma ShownDeletedIff(states: ShownLog, status: map<nat, Entry<StateRow>>, id: nat, at: int)
    requires Grounded(states, status) && DeletionsSeen(states, status)
    requires id in status && !ShowsDeleted(status, id)
    ensures ShowsDeleted(CommitState(states, status, id, at).1, id) <==> DeletedState(states, id) == 0
  {
  }

  /** Deleted, restored, planned again: the second deletion leaves every log and the projection as they were. */
  lemma SecondDeletionIsLost()
    ensures var states: ShownLog := [LogRow(1, StateRow(Accepted, 0)), LogRow(1, StateRow(RetentionDeleted, 2)),
              LogRow(1, StateRow(Restored, 3))];
            var rows: RetentionLog := [LogRow(1, RetentionRow(Planned, 1)), LogRow(1, RetentionRow(Deleted, 2)),
                LogRow(1, RetentionRow(Planned, 4))];
            var status := map[1 := Entry(3, StateRow(Restored, 3))];
            && Grounded(states, status) && PlannedBefore(rows, 1)
            && forall at :: AppendDeletion(rows, 1, at) == rows
                && CommitState(states, status, 1, at) == (states, status)
  {
    var rows: RetentionLog := [LogRow(1, RetentionRow(Planned, 1)), LogRow(1, RetentionRow(Deleted, 2)),
        LogRow(1, RetentionRow(Planned, 4))];
    assert rows[1].value.status == Deleted;
    assert rows[..2] + [rows[2]] == rows;
  }

  // ----- lawful effects -----

  function Matches(contents: Contents, segment: ManagedFile): bool {
    |contents| == segment.size && MediaTypes.Sha256(contents) == segment.digest
  }

  /** The full backup: whether policy demands one, its manifest, and its bodies. */
  datatype Backup = Backup(required: bool, coverage: map<string, Coverage>, bodies: map<string, Contents>)

  /** Unless none is required, the manifest covers the segment and the body has the same size and hash. */
  predicate Covered(backup: Backup, segment: ManagedFile) {
    backup.required ==>
      && segment.path in backup.coverage
      && backup.coverage[segment.path].digest == segment.digest && backup.coverage[segment.path].size == segment.size
      && backup.coverage[segment.path].backupPath in backup.bodies
      && Matches(backup.bodies[backup.coverage[segment.path].backupPath], segment)
  }

  ghost predicate NewPlan(before: RetentionLog, after: RetentionLog, id: nat) {
    exists i :: |before| <= i < |after| && after[i].key == id && after[i].value.status == Planned
  }

  /** The segment's own verified file was removed under a plan and, where required, with its backup checked. */
  ghost predicate RemovedFor(
      id: nat, path: string, contents: Contents, segments: seq<ManagedFile>, before: RetentionLog,
      after: RetentionLog, backup: Backup)
  {
    && 1 <= id <= |segments| && segments[id - 1].path == path && Matches(contents, segments[id - 1])
    && NewPlan(before, after, id) && Covered(backup, segments[id - 1])
  }

  /** Files only disappear, and each for a reason. */
  ghost predicate LawfulRemovals(
      before: map<string, Contents>, after: map<string, Contents>, segments: seq<ManagedFile>,
      rowsBefore: RetentionLog, rowsAfter: RetentionLog, backup: Backup)
  {
    && (forall p :: p in after ==> p in before && after[p] == before[p])
    && (forall p :: p in before && p !in after ==> exists id ::
        RemovedFor(id, p, before[p], segments, rowsBefore, rowsAfter, backup))
  }

  /** Every new state row deletes a segment whose file is gone. */
  ghost predicate LawfulStates(
      before: ShownLog, after: ShownLog, segments: seq<ManagedFile>, files: map<string, Contents>)
  {
    && before <= after
    && forall i :: |before| <= i < |after| ==>
         && after[i].value.status == RetentionDeleted
         && 1 <= after[i].key <= |segments| && segments[after[i].key - 1].path !in files
  }

  predicate Older(segments: seq<ManagedFile>, a: nat, b: nat) {
    CreatedAt(segments, a) < CreatedAt(segments, b) || (CreatedAt(segments, a) == CreatedAt(segments, b) && a < b)
  }

  predicate OldestFirst(segments: seq<ManagedFile>, ids: seq<nat>) {
    forall i, j :: 0 <= i < j < |ids| ==> Older(segments, ids[i], ids[j])
  }

  predicate AllOlder(segments: seq<ManagedFile>, ids: seq<nat>, id: nat) {
    forall i :: 0 <= i < |ids| ==> Older(segments, ids[i], id)
  }

  function CreatedAt(segments: seq<ManagedFile>, id: nat): int {
    if 1 <= id <= |segments| then segments[id - 1].createdAt else 0
  }

  lemma SortedIsStrict(segments: seq<ManagedFile>, sorted: seq<nat>, all: seq<nat>)
    requires multiset(sorted) == multiset(all) && forall i, j :: 0 <= i < j < |all| ==> all[i] < all[j]
    requires Sorted((a: nat, b: nat) => !Older(segments, b, a), sorted)
    ensures forall i, j :: 0 <= i < j < |sorted| ==> Older(segments, sorted[i], sorted[j])
  {
    forall i, j | 0 <= i < j < |sorted|
      ensures Older(segments, sorted[i], sorted[j])
    {
      if sorted[i] == sorted[j] {
        RepeatCountsTwice(sorted, i, j);
        DistinctCountsOnce(all, sorted[i]);
        assert false;
      }
    }
  }

  ghost predicate DistinctPaths(segments: seq<ManagedFile>) {
    forall i, j :: 0 <= i < j < |segments| ==> segments[i].path != segments[j].path
  }

  /** An accepted segment is named by content that no other segment has, so its path is new. */
  predicate NewPath(segments: seq<ManagedFile>, path: string) {
    forall i :: 0 <= i < |segments| ==> segments[i].path != path
  }

  /** One moment of the tables and files. */
  datatype Facts = Facts(rows: RetentionLog, files: map<string, Contents>, status: map<nat, Entry<StateRow>>,
      states: ShownLog)

  /** Rows only grow; removals and state rows are lawful. */
  ghost predicate Lawful(start: Facts, now: Facts, segments: seq<ManagedFile>, backup: Backup) {
    && start.rows <= now.rows
    && LawfulRemovals(start.files, now.files, segments, start.rows, now.rows, backup)
    && LawfulStates(start.states, now.states, segments, now.files)
  }

  lemma LawfulStep(start: Facts, before: Facts, now: Facts, segments: seq<ManagedFile>, backup: Backup)
    requires Lawful(start, before, segments, backup) && Lawful(before, now, segments, backup)
    ensures Lawful(start, now, segments, backup)
  {
    RemovalsCompose(start.files, before.files, now.files, segments, start.rows, before.rows, now.rows, backup);
  }

  // ----- one segment -----

  /** A segment at one moment: its file, its shown state, whether retention ever deleted it, whether its latest row is
      a plan. */
  datatype View = View(file: Option<Contents>, shown: Option<MediaState>, deleted: bool, planned: bool)

  function ViewAt(id: nat, segments: seq<ManagedFile>, at: Facts): View
    requires 1 <= id <= |segments|
  {
    var path := segments[id - 1].path;
    View(
      if path in at.files then Some(at.files[path]) else None,
      if id in at.status then Some(at.status[id].value.status) else None,
      DeletedState(at.states, id) > 0,
      PlannedBefore(at.rows, id))
  }

  /** Shown as something other than deleted. */
  predicate Live(v: View) {
    v.shown.Some? && v.shown.value != RetentionDeleted
  }

  /** Covered, and either its file is there and verifies, or it is gone under a plan. */
  predicate Removable(v: View, segment: ManagedFile, backup: Backup) {
    Covered(backup, segment) && if v.file.Some? then Matches(v.file.value, segment) else v.planned
  }

  /** The file is gone, and the segment is shown as deleted unless retention had deleted it before. */
  predicate Gone(v: View, before: View) {
    v.file == None && (v.shown == Some(RetentionDeleted) <==> !before.deleted)
  }

  /**
   What retention may make of a segment: files only go, a shown deletion stays and stands for a missing file, and what
   could be removed either is gone or can still be removed.
   */
  predicate Settles(a: View, b: View, segment: ManagedFile, backup: Backup) {
    && (b.file == a.file || b.file == None)
    && (a.deleted ==> b.deleted)
    && (a.shown == Some(RetentionDeleted) ==> b.shown == a.shown)
    && (Live(a) ==>
          && (b.shown == a.shown || (b.shown == Some(RetentionDeleted) && b.file == None && !a.deleted))
          && (b.deleted && !a.deleted ==> b.shown == Some(RetentionDeleted))
          && (Removable(a, segment, backup) ==> Gone(b, a) || Removable(b, segment, backup)))
  }

  ghost predicate AllSettle(segments: seq<ManagedFile>, start: Facts, now: Facts, backup: Backup) {
    forall id {:trigger ViewAt(id, segments, now)} :: 1 <= id <= |segments| ==>
      Settles(ViewAt(id, segments, start), ViewAt(id, segments, now), segments[id - 1], backup)
  }

  /** Segments that were not selected are as before: their file, their shown state, their rows. */
  ghost predicate OthersStay(ids: seq<nat>, segments: seq<ManagedFile>, start: Facts, now: Facts) {
    forall id {:trigger ViewAt(id, segments, now)} :: 1 <= id <= |segments| && id !in ids ==>
      ViewAt(id, segments, now) == ViewAt(id, segments, start)
  }

  lemma {:induction false} OthersStayStep(
      ids: seq<nat>, id: nat, segments: seq<ManagedFile>, start: Facts, before: Facts, now: Facts, backup: Backup)
    requires 1 <= id <= |segments| && id in ids && DistinctPaths(segments)
    requires Touches(id, segments, before, now, backup) && OthersStay(ids, segments, start, before)
    ensures OthersStay(ids, segments, start, now)
  {
    forall other | 1 <= other <= |segments| && other !in ids
      ensures ViewAt(other, segments, now) == ViewAt(other, segments, start)
    {
      assert ViewAt(other, segments, before) == ViewAt(other, segments, start);
    }
  }

  /** At most this one file went. */
  ghost predicate OnlyFile(path: string, before: map<string, Contents>, now: map<string, Contents>) {
    now == before || now == before - {path}
  }

  /** A step treated this segment and no other. */
  ghost predicate Touches(id: nat, segments: seq<ManagedFile>, before: Facts, now: Facts, backup: Backup)
    requires 1 <= id <= |segments|
  {
    && OnlyAbout(id, before.rows, now.rows, before.status, now.status, before.states, now.states)
    && OnlyFile(segments[id - 1].path, before.files, now.files)
    && Settles(ViewAt(id, segments, before), ViewAt(id, segments, now), segments[id - 1], backup)
  }

  lemma {:induction false} AllSettleStep(
      id: nat, segments: seq<ManagedFile>, start: Facts, before: Facts, now: Facts, backup: Backup)
    requires 1 <= id <= |segments| && DistinctPaths(segments)
    requires Touches(id, segments, before, now, backup)
    requires AllSettle(segments, start, before, backup)
    ensures AllSettle(segments, start, now, backup)
  {
    forall other | 1 <= other <= |segments|
      ensures Settles(ViewAt(other, segments, start), ViewAt(other, segments, now), segments[other - 1], backup)
    {
      var a, b, c := ViewAt(other, segments, start), ViewAt(other, segments, before), ViewAt(other, segments, now);
      if other != id {
      } else {
      }
    }
  }

  /** The removable candidates treated so far are gone. */
  ghost predicate Progress(
      candidates: seq<nat>, k: nat, segments: seq<ManagedFile>, start: Facts, now: Facts, backup: Backup)
    requires k <= |candidates|
  {
    forall j :: 0 <= j < k && 1 <= candidates[j] <= |segments| ==> Finished(candidates[j], segments, start, now, backup)
  }

  ghost predicate Finished(id: nat, segments: seq<ManagedFile>, start: Facts, now: Facts, backup: Backup)
    requires 1 <= id <= |segments|
  {
    var a := ViewAt(id, segments, start);
    Live(a) && Removable(a, segments[id - 1], backup) ==> Gone(ViewAt(id, segments, now), a)
  }

  lemma {:induction false} ProgressStep(
      candidates: seq<nat>, k: nat, segments: seq<ManagedFile>, start: Facts, before: Facts, now: Facts,
      backup: Backup)
    requires k < |candidates| && 1 <= candidates[k] <= |segments| && DistinctPaths(segments)
    requires Progress(candidates, k, segments, start, before, backup) && AllSettle(segments, start, before, backup)
    requires AllSettle(segments, before, now, backup)
    requires Finished(candidates[k], segments, before, now, backup)
    ensures Progress(candidates, k + 1, segments, start, now, backup)
  {
    forall j | 0 <= j < k + 1 && 1 <= candidates[j] <= |segments|
      ensures Finished(candidates[j], segments, start, now, backup)
    {
      var id := candidates[j];
      var a, b, c := ViewAt(id, segments, start), ViewAt(id, segments, before), ViewAt(id, segments, now);
      if Live(a) && Removable(a, segments[id - 1], backup) {
        if j < k {
          assert Finished(id, segments, start, before, backup);
        } else {
        }
      }
    }
  }

  lemma RemovalIsLawful(
      id: nat, files: map<string, Contents>, segments: seq<ManagedFile>, before: RetentionLog, after: RetentionLog,
      backup: Backup)
    requires 1 <= id <= |segments| && Covered(backup, segments[id - 1])
    requires segments[id - 1].path in files && Matches(files[segments[id - 1].path], segments[id - 1])
    requires |after| == |before| + 1 && after[|before|].key == id && after[|before|].value.status == Planned
    ensures LawfulRemovals(files, files - {segments[id - 1].path}, segments, before, after, backup)
  {
    var path := segments[id - 1].path;
    assert RemovedFor(id, path, files[path], segments, before, after, backup);
  }

  lemma RemovalsCompose(
      f0: map<string, Contents>, f1: map<string, Contents>, f2: map<string, Contents>, segments: seq<ManagedFile>,
      r0: RetentionLog, r1: RetentionLog, r2: RetentionLog, backup: Backup)
    requires LawfulRemovals(f0, f1, segments, r0, r1, backup) && LawfulRemovals(f1, f2, segments, r1, r2, backup)
    requires r0 <= r1 <= r2
    ensures LawfulRemovals(f0, f2, segments, r0, r2, backup)
  {
    forall p | p in f0 && p !in f2
      ensures exists id :: RemovedFor(id, p, f0[p], segments, r0, r2, backup)
    {
      if p in f1 {
        var id :| RemovedFor(id, p, f1[p], segments, r1, r2, backup);
        var i :| |r1| <= i < |r2| && r2[i].key == id && r2[i].value.status == Planned;
        assert RemovedFor(id, p, f0[p], segments, r0, r2, backup);
      } else {
        var id :| RemovedFor(id, p, f0[p], segments, r0, r1, backup);
        var i :| |r0| <= i < |r1| && r1[i].key == id && r1[i].value.status == Planned;
        assert r2[i] == r1[i];
        assert RemovedFor(id, p, f0[p], segments, r0, r2, backup);
      }
    }
  }

  /** Deletions follow plans, the logs agree, and the projection shows the state log. */
  ghost predicate Coherent(rows: RetentionLog, states: ShownLog, status: map<nat, Entry<StateRow>>, clock: int) {
    && NotAfter(rows, clock) && DeletionsFollowPlans(rows) && DeletionsAgree(rows, states)
    && Grounded(states, status) && DeletionsSeen(states, status)
  }

  /** What committing a planned deletion does to the logs and the projection. */
  lemma {:induction false} DeletionStep(
      rows: RetentionLog, states: ShownLog, status: map<nat, Entry<StateRow>>, id: nat, before: int, now: int)
    requires Coherent(rows, states, status, before) && before < now && PlannedBefore(rows, id)
    ensures var (more, shown) := CommitState(states, status, id, now);
            && Coherent(AppendDeletion(rows, id, now), more, shown, now)
            && OnlyAbout(id, rows, AppendDeletion(rows, id, now), status, shown, states, more)
  {
    DeletionKeepsRows(rows, states, id, now);
    CommitStateKeeps(states, status, id, now);
    DeletionStatesAbout(id, states, now);
  }

  // ----- the manager -----

  class Manager {
    var segments: seq<ManagedFile>
    var files: map<string, Contents>
    var rows: RetentionLog
    var states: ShownLog
    var status: map<nat, Entry<StateRow>>
    var clock: int
    const faults: Script

    ghost predicate Valid()
      reads this
    {
      Coherent(rows, states, status, clock) && DistinctPaths(segments)
    }

    constructor (script: Script)
      ensures Valid() && faults == script
    {
      segments, files, rows, states, status, clock, faults := [], map[], [], [], map[], 0, script;
    }

    /** `now`: the clock advances between rows. */
    method Tick() returns (now: int)
      modifies this`clock
      ensures now == clock == old(clock) + 1
    {
      clock := clock + 1;
      now := clock;
    }

    /** A plan or a failure is appended. */
    method AppendRetentionEvent(id: nat, kind: RetentionStatus) returns (o: Outcome)
      requires Valid() && kind != Deleted
      modifies this`rows, this`clock, faults
      ensures Valid()
      ensures clock == old(clock) + 1
      ensures if o == Done then rows == old(rows) + [LogRow(id, RetentionRow(kind, clock))] else rows == old(rows)
      ensures RowsAbout(id, old(rows), rows) && (o == Done ==> LatestIs(rows, id, kind))
      ensures old(Clean(faults.ahead)) ==> o == Done && Clean(faults.ahead)
    {
      var now := Tick();
      o := faults.Next();
      if o == Done {
        var row := RetentionRow(kind, now);
        assert LogRow(id, row) !in rows;
        AppendKeepsFollowing(rows, id, row);
        OtherRowKeepsAgreement(rows, states, id, row);
        AppendedRowsAbout(id, rows, row);
        rows := AppendRow(rows, id, row);
      }
    }

    /** `CommitRetentionDeletion`: deletion row, state row and projection in one transaction. */
    method ConfirmRetentionDeletion(id: nat) returns (o: Outcome)
      requires Valid() && PlannedBefore(rows, id)
      modifies this`rows, this`states, this`status, this`clock, faults
      ensures Valid()
      ensures o != Done ==> rows == old(rows) && states == old(states) && status == old(status)
      ensures o == Done ==>
                && rows == AppendDeletion(old(rows), id, clock)
                && (states, status) == CommitState(old(states), old(status), id, clock)
      ensures OnlyAbout(id, old(rows), rows, old(status), status, old(states), states)
      ensures old(Clean(faults.ahead)) ==> o == Done && Clean(faults.ahead)
    {
      var now := Tick();
      o := faults.Next();
      if o == Done {
        DeletionStep(rows, states, status, id, clock - 1, now);
        rows := AppendDeletion(rows, id, now);
        var (more, shown) := CommitState(states, status, id, now);
        states, status := more, shown;
      }
    }

    /** The commit for a file that is gone. */
    method Confirm(id: nat, ghost backup: Backup) returns (o: Outcome)
      requires Valid() && 1 <= id <= |segments| && PlannedBefore(rows, id) && segments[id - 1].path !in files
      modifies this`rows, this`states, this`status, this`clock, faults
      ensures Valid() && old(rows) <= rows && LawfulStates(old(states), states, segments, files)
      ensures OnlyAbout(id, old(rows), rows, old(status), status, old(states), states)
      ensures Settles(old(ViewOf(id)), ViewOf(id), segments[id - 1], backup)
      ensures old(Clean(faults.ahead)) ==>
                o == Done && Clean(faults.ahead) && (Live(old(ViewOf(id))) ==> Gone(ViewOf(id), old(ViewOf(id))))
    {
      o := ConfirmRetentionDeletion(id);
      if o == Done {
        CommitIsLawful(states, old(states), old(status), id, clock, segments, files);
        CommitSettles(id, segments, old(Now()), Now(), clock, backup);
      }
    }

    /** One candidate. Whatever cuts it short, a file goes only under a plan, and a state row only after its file. */
    method ProcessCandidate(id: nat, backup: Backup) returns (o: Outcome)
      requires Valid() && 1 <= id <= |segments|
      modifies this`files, this`rows, this`states, this`status, this`clock, faults
      ensures Valid() && Lawful(old(Now()), Now(), segments, backup)
      ensures Touches(id, segments, old(Now()), Now(), backup)
      ensures old(Clean(faults.ahead)) ==>
                o == Done && Clean(faults.ahead) && Finished(id, segments, old(Now()), Now(), backup)
    {
      o := Done;
      var segment := segments[id - 1];
      if !Covered(backup, segment) { return; }
      o := faults.Next();
      if o != Done { return; }
      if segment.path !in files && PlannedBefore(rows, id) {
        o := Confirm(id, backup);
        return;
      }
      if segment.path !in files || !Matches(files[segment.path], segment) { return; }
      o := RemoveAndConfirm(id, backup);
    }

    /** The plan, the removal, and the commit. */
    method RemoveAndConfirm(id: nat, backup: Backup) returns (o: Outcome)
      requires Valid() && 1 <= id <= |segments| && Covered(backup, segments[id - 1])
      requires segments[id - 1].path in files && Matches(files[segments[id - 1].path], segments[id - 1])
      modifies this`files, this`rows, this`states, this`status, this`clock, faults
      ensures Valid() && Lawful(old(Now()), Now(), segments, backup)
      ensures Touches(id, segments, old(Now()), Now(), backup)
      ensures old(Clean(faults.ahead)) ==>
                o == Done && Clean(faults.ahead) && Finished(id, segments, old(Now()), Now(), backup)
    {
      var segment := segments[id - 1];
      o := PlanAndRemove(id, backup);
      RemovalSettles(id, segments, old(Now()), Now(), backup);
      if o == Done && segment.path !in files {
        ghost var planned, removed := rows, ViewOf(id);
        o := Confirm(id, backup);
        RemovalsCompose(old(files), files, files, segments, old(rows), planned, rows, backup);
      }
    }

    /** The plan, then the removal; a removal that fails is recorded. */
    method PlanAndRemove(id: nat, backup: Backup) returns (o: Outcome)
      requires Valid() && 1 <= id <= |segments| && Covered(backup, segments[id - 1])
      requires segments[id - 1].path in files && Matches(files[segments[id - 1].path], segments[id - 1])
      modifies this`files, this`rows, this`clock, faults
      ensures Valid() && old(rows) <= rows
      ensures LawfulRemovals(old(files), files, segments, old(rows), rows, backup)
      ensures files == old(files) || files == old(files) - {segments[id - 1].path}
      ensures segments[id - 1].path !in files ==> PlannedBefore(rows, id)
      ensures RowsAbout(id, old(rows), rows)
      ensures o == Done && segments[id - 1].path in files ==> LatestIs(rows, id, Failed)
      ensures old(Clean(faults.ahead)) ==> o == Done && Clean(faults.ahead) && segments[id - 1].path !in files
    {
      o := AppendRetentionEvent(id, Planned);
      if o == Done {
        RemovalIsLawful(id, files, segments, old(rows), rows, backup);
        o := RemoveFile(id);
      }
    }

    /** `os.Remove`; a removal that fails is recorded. */
    method RemoveFile(id: nat) returns (o: Outcome)
      requires Valid() && 1 <= id <= |segments| && PlannedBefore(rows, id)
      modifies this`files, this`rows, this`clock, faults
      ensures Valid() && old(rows) <= rows && RowsAbout(id, old(rows), rows)
      ensures files == old(files) || (files == old(files) - {segments[id - 1].path} && rows == old(rows))
      ensures o == Done && segments[id - 1].path in files ==> LatestIs(rows, id, Failed)
      ensures old(Clean(faults.ahead)) ==> o == Done && Clean(faults.ahead) && segments[id - 1].path !in files
    {
      o := faults.Next();
      if o == Done {
        files := files - {segments[id - 1].path};
      } else if o != Crash {
        o := AppendRetentionEvent(id, Failed);
      }
    }

    /** `AppendMediaState`: any other state row, then its projection. Acceptance appends its first row the same way. */
    method AppendMediaState(id: nat, kind: MediaState) returns (o: Outcome)
      requires Valid() && kind != RetentionDeleted
      modifies this`states, this`status, this`clock, faults
      ensures Valid()
      ensures states == old(states) || states == old(states) + [LogRow(id, StateRow(kind, clock))]
      ensures o == Done ==>
                states == old(states) + [LogRow(id, StateRow(kind, clock))]
                && status == Apply(states, old(status), |states|)
      ensures o != Done ==> status == old(status)
    {
      var now := Tick();
      o := faults.Next();
      if o != Done { return; }
      OtherStateKeeps(rows, states, status, id, StateRow(kind, now));
      states := states + [LogRow(id, StateRow(kind, now))];
      o := faults.Next();
      if o == Done {
        status := Apply(states, status, |states|);
      }
    }

    /** A segment shown as present and old enough. */
    predicate IsCandidate(id: nat, cutoff: int)
      reads this
    {
      && 1 <= id <= |segments| && segments[id - 1].createdAt < cutoff
      && id in status && status[id].value.status in {Accepted, Restored}
    }

    /** The oldest candidates, by creation time and id, up to the limit. */
    method RetentionCandidates(cutoff: int, limit: nat) returns (ids: seq<nat>)
      ensures |ids| <= limit && forall i :: 0 <= i < |ids| ==> IsCandidate(ids[i], cutoff)
      ensures OldestFirst(segments, ids)
      ensures forall id :: IsCandidate(id, cutoff) && id !in ids ==> |ids| == limit && AllOlder(segments, ids, id)
    {
      var all: seq<nat> := [];
      for n := 1 to |segments| + 1
        invariant forall id: nat :: id in all <==> id < n && IsCandidate(id, cutoff)
        invariant forall i :: 0 <= i < |all| ==> all[i] < n
        invariant forall i, j :: 0 <= i < j < |all| ==> all[i] < all[j]
      {
        if IsCandidate(n, cutoff) { all := all + [n]; }
      }
      var segs := segments;
      var sorted := SortSlice(all, (a: nat, b: nat) => !Older(segs, b, a));
      SameMultiset(sorted, all);
      SortedIsStrict(segs, sorted, all);
      ids := if |sorted| <= limit then sorted else sorted[..limit];
    }

    /**
     One run over the oldest candidates, no more than the limit. However it is cut, files go only under a plan (and a
     checked backup), state rows come only after their files, whatever could be removed is gone or can still be removed,
     and segments that were not selected are as before. Uncut, every candidate that could be removed is gone, and shown
     as deleted exactly when retention had not deleted it before.
     */
    method RetentionOnce(due: bool, backup: Option<Backup>, cutoff: int, limit: nat)
      returns (o: Outcome, ghost ids: seq<nat>)
      requires Valid()
      modifies this`files, this`rows, this`states, this`status, this`clock, faults
      ensures Valid()
      ensures if due && backup.Some? then Lawful(old(Now()), Now(), segments, backup.value) else Now() == old(Now())
      ensures forall id :: id in ids ==> old(IsCandidate(id, cutoff))
      ensures |ids| <= limit && OldestFirst(segments, ids)
      ensures due && backup.Some? ==>
                forall id :: old(IsCandidate(id, cutoff)) && id !in ids ==>
                  |ids| == limit && AllOlder(segments, ids, id)
      ensures due && backup.Some? ==> AllTaken(segments, old(Now()), ids, cutoff, limit)
      ensures due && backup.Some? ==> AllSettle(segments, old(Now()), Now(), backup.value)
      ensures OthersStay(ids, segments, old(Now()), Now())
      ensures old(Clean(faults.ahead)) && backup.Some? ==>
                Progress(ids, |ids|, segments, old(Now()), Now(), backup.value)
    {
      o, ids := Done, [];
      if !due || backup == None { return; }
      var candidates := RetentionCandidates(cutoff, limit);
      ids := candidates;
      ghost var start := Now();
      assert AllTaken(segments, start, ids, cutoff, limit) by {
        forall id | 1 <= id <= |segments| && MayGo(id, segments, start, cutoff) && id !in ids
          ensures |ids| == limit
        {
          assert IsCandidate(id, cutoff);
        }
      }
      for k := 0 to |candidates|
        invariant Valid()
        invariant old(Clean(faults.ahead)) ==> Clean(faults.ahead)
        invariant OnCourse(candidates, k, segments, start, Now(), backup.value, old(Clean(faults.ahead)))
      {
        assert candidates[k] in ids;
        o := Visit(candidates, k, backup.value, start, old(Clean(faults.ahead)));
        if o == Crash { return; }
      }
    }

    ghost function Now(): Facts
      reads this
    {
      Facts(rows, files, status, states)
    }

    ghost function ViewOf(id: nat): View
      requires 1 <= id <= |segments|
      reads this
    {
      ViewAt(id, segments, Now())
    }

    /** One iteration over the candidates. */
    method Visit(candidates: seq<nat>, k: nat, backup: Backup, ghost start: Facts, ghost calm: bool)
      returns (o: Outcome)
      requires Valid() && k < |candidates| && 1 <= candidates[k] <= |segments| && (calm ==> Clean(faults.ahead))
      requires OnCourse(candidates, k, segments, start, Now(), backup, calm)
      modifies this`files, this`rows, this`states, this`status, this`clock, faults
      ensures Valid()
      ensures OnCourse(candidates, if o == Crash then k else k + 1, segments, start, Now(), backup, calm)
      ensures calm ==> o == Done && Clean(faults.ahead)
    {
      ghost var before := Now();
      o := ProcessCandidate(candidates[k], backup);
      VisitSettles(candidates, k, segments, start, before, Now(), backup, calm);
    }

    /**
     A run cut anywhere, then a calm one with the same backup: every candidate that could be removed before the first is
     gone, unless the second run was full.
     */
    method CutThenRerun(cut: seq<Outcome>, backup: Backup, cutoff: int, limit: nat) returns (ghost ids: seq<nat>)
      requires Valid()
      modifies this`files, this`rows, this`states, this`status, this`clock, faults
      ensures Valid() && Lawful(old(Now()), Now(), segments, backup)
      ensures AllGone(segments, old(Now()), Now(), backup, ids, cutoff, limit)
    {
      ghost var start := Now();
      faults.ahead := cut;
      var o;
      o, ids := RetentionOnce(true, Some(backup), cutoff, limit);
      ghost var middle := Now();
      faults.ahead := [];
      o, ids := RetentionOnce(true, Some(backup), cutoff, limit);
      LawfulStep(start, middle, Now(), segments, backup);
      RerunFinishes(segments, start, middle, Now(), backup, ids, cutoff, limit);
    }
  }

  /** Every effect was lawful, everything settles or stays, and in a calm run the first `k` candidates are finished. */
  ghost predicate OnCourse(
      candidates: seq<nat>, k: nat, segments: seq<ManagedFile>, start: Facts, now: Facts, backup: Backup, calm: bool)
    requires k <= |candidates|
  {
    && Lawful(start, now, segments, backup)
    && AllSettle(segments, start, now, backup) && OthersStay(candidates, segments, start, now)
    && (calm ==> Progress(candidates, k, segments, start, now, backup))
  }

  /** What treating one candidate does for the whole run. */
  lemma {:induction false} VisitSettles(
      candidates: seq<nat>, k: nat, segments: seq<ManagedFile>, start: Facts, before: Facts, now: Facts,
      backup: Backup, calm: bool)
    requires k < |candidates| && 1 <= candidates[k] <= |segments| && DistinctPaths(segments)
    requires Touches(candidates[k], segments, before, now, backup)
    requires OnCourse(candidates, k, segments, start, before, backup, calm)
    requires Lawful(before, now, segments, backup) && (calm ==> Finished(candidates[k], segments, before, now, backup))
    ensures OnCourse(candidates, k + 1, segments, start, now, backup, calm)
    ensures OnCourse(candidates, k, segments, start, now, backup, calm)
  {
    LawfulStep(start, before, now, segments, backup);
    AllSettleStep(candidates[k], segments, start, before, now, backup);
    OthersStayStep(candidates, candidates[k], segments, start, before, now, backup);
    if calm {
      AllSettleStep(candidates[k], segments, before, before, now, backup);
      ProgressStep(candidates, k, segments, start, before, now, backup);
    }
  }

  /** A candidate by its view. */
  predicate MayGo(id: nat, segments: seq<ManagedFile>, at: Facts, cutoff: int)
    requires 1 <= id <= |segments|
  {
    segments[id - 1].createdAt < cutoff && ViewAt(id, segments, at).shown in {Some(Accepted), Some(Restored)}
  }

  /** Every candidate was taken, or the run was full. */
  ghost predicate AllTaken(segments: seq<ManagedFile>, at: Facts, ids: seq<nat>, cutoff: int, limit: nat) {
    forall id :: 1 <= id <= |segments| && MayGo(id, segments, at, cutoff) && id !in ids ==> |ids| == limit
  }

  /** Every candidate that could be removed at the start is gone, or was left out of a full run. */
  ghost predicate AllGone(
      segments: seq<ManagedFile>, start: Facts, now: Facts, backup: Backup, ids: seq<nat>, cutoff: int, limit: nat)
  {
    forall id :: 1 <= id <= |segments| && MayGo(id, segments, start, cutoff)
                 && Removable(ViewAt(id, segments, start), segments[id - 1], backup) ==>
      Gone(ViewAt(id, segments, now), ViewAt(id, segments, start)) || (id !in ids && |ids| == limit)
  }

  lemma RerunFinishes(
      segments: seq<ManagedFile>, start: Facts, middle: Facts, now: Facts, backup: Backup, ids: seq<nat>, cutoff: int,
      limit: nat)
    requires AllSettle(segments, start, middle, backup) && AllSettle(segments, middle, now, backup)
    requires Progress(ids, |ids|, segments, middle, now, backup) && AllTaken(segments, middle, ids, cutoff, limit)
    ensures AllGone(segments, start, now, backup, ids, cutoff, limit)
  {
    forall id | 1 <= id <= |segments| && MayGo(id, segments, start, cutoff)
                && Removable(ViewAt(id, segments, start), segments[id - 1], backup)
      ensures Gone(ViewAt(id, segments, now), ViewAt(id, segments, start)) || (id !in ids && |ids| == limit)
    {
      var a, b, c := ViewAt(id, segments, start), ViewAt(id, segments, middle), ViewAt(id, segments, now);
      if id in ids {
        var j :| 0 <= j < |ids| && ids[j] == id;
        assert Finished(id, segments, middle, now, backup);
      } else if Gone(b, a) {
      } else {
        assert MayGo(id, segments, middle, cutoff);
      }
    }
  }

  /** A verified file that is still there, or gone under a plan, settles its segment. */
  lemma RemovalSettles(id: nat, segments: seq<ManagedFile>, before: Facts, now: Facts, backup: Backup)
    requires 1 <= id <= |segments| && Removable(ViewAt(id, segments, before), segments[id - 1], backup)
    requires now.states == before.states && now.status == before.status && segments[id - 1].path in before.files
    requires now.files == before.files
               || (OnlyFile(segments[id - 1].path, before.files, now.files) && PlannedBefore(now.rows, id))
    ensures Settles(ViewAt(id, segments, before), ViewAt(id, segments, now), segments[id - 1], backup)
  {
  }

  /** The commit for a missing file settles its segment, and leaves it gone. */
  lemma CommitSettles(id: nat, segments: seq<ManagedFile>, before: Facts, now: Facts, at: int, backup: Backup)
    requires 1 <= id <= |segments| && segments[id - 1].path !in before.files && now.files == before.files
    requires Grounded(before.states, before.status) && DeletionsSeen(before.states, before.status)
    requires PlannedBefore(before.rows, id)
    requires (now.states, now.status) == CommitState(before.states, before.status, id, at)
    ensures Settles(ViewAt(id, segments, before), ViewAt(id, segments, now), segments[id - 1], backup)
    ensures Live(ViewAt(id, segments, before)) ==> Gone(ViewAt(id, segments, now), ViewAt(id, segments, before))
  {
    AppendedDeletedState(before.states, id, at, id);
    assert DeletedState(before.states, id) > 0 ==> SeenIn(before.states, before.status, id);
    if Live(ViewAt(id, segments, before)) {
      ShownDeletedIff(before.states, before.status, id, at);
    }
  }

  lemma CommitIsLawful(
      after: ShownLog, states: ShownLog, status: map<nat, Entry<StateRow>>, id: nat, at: int,
      segments: seq<ManagedFile>, files: map<string, Contents>)
    requires Grounded(states, status) && DeletionsSeen(states, status) && after == AppendDeletedState(states, id, at)
    requires 1 <= id <= |segments| && segments[id - 1].path !in files
    ensures LawfulStates(states, after, segments, files)
  {
  }

  lemma OtherStateKeeps(rows: RetentionLog, states: ShownLog, status: map<nat, Entry<StateRow>>, id: nat, row: StateRow)
    requires DeletionsAgree(rows, states) && Grounded(states, status) && DeletionsSeen(states, status)
             && row.status != RetentionDeleted
    ensures var more := states + [LogRow(id, row)];
            && DeletionsAgree(rows, more) && Grounded(more, status) && DeletionsSeen(more, status)
            && Grounded(more, Apply(more, status, |more|)) && DeletionsSeen(more, Apply(more, status, |more|))
  {
    var more := states + [LogRow(id, row)];
    forall other
      ensures DeletedState(more, other) == DeletedState(states, other)
    {
      DeletedStateAppended(states, id, row, other);
    }
  }

  lemma DeletionsStayAgreed(rows: RetentionLog, states: ShownLog, id: nat, at: int)
    requires DeletionsAgree(rows, states)
    ensures DeletionsAgree(AppendDeletion(rows, id, at), AppendDeletedState(states, id, at))
  {
    forall other
      ensures HasDeletion(AppendDeletion(rows, id, at), other) <==>
                DeletedState(AppendDeletedState(states, id, at), other) > 0
    {
      AppendDeletionHas(rows, id, at, other);
      if DeletedState(states, id) == 0 {
        DeletedStateAppended(states, id, StateRow(RetentionDeleted, at), other);
      }
    }
  }

  lemma OtherRowKeepsAgreement(rows: RetentionLog, states: ShownLog, id: nat, row: RetentionRow)
    requires DeletionsAgree(rows, states) && row.status != Deleted
    ensures DeletionsAgree(rows + [LogRow(id, row)], states)
  {
    forall other
      ensures HasDeletion(rows + [LogRow(id, row)], other) <==> HasDeletion(rows, other)
    {
      OtherRowIsNoDeletion(rows, id, row, other);
    }
  }

  lemma AppendedRowsAbout(id: nat, rows: RetentionLog, row: RetentionRow)
    ensures RowsAbout(id, rows, rows + [LogRow(id, row)])
    ensures LatestIs(rows + [LogRow(id, row)], id, row.status)
    ensures PlannedBefore(rows + [LogRow(id, row)], id) <==> row.status == Planned
  {
  }

  lemma {:induction false} DeletionRowsAbout(id: nat, rows: RetentionLog, at: int)
    ensures RowsAbout(id, rows, AppendDeletion(rows, id, at))
  {
  }

  lemma DeletionKeepsRows(rows: RetentionLog, states: ShownLog, id: nat, at: int)
    requires DeletionsFollowPlans(rows) && DeletionsAgree(rows, states) && PlannedBefore(rows, id)
    ensures DeletionsFollowPlans(AppendDeletion(rows, id, at)) && RowsAbout(id, rows, AppendDeletion(rows, id, at))
    ensures DeletionsAgree(AppendDeletion(rows, id, at), AppendDeletedState(states, id, at))
  {
    DeletionRowsAbout(id, rows, at);
    AppendKeepsFollowing(rows, id, RetentionRow(Deleted, at));
    DeletionsStayAgreed(rows, states, id, at);
  }

  lemma DeletionStatesAbout(id: nat, states: ShownLog, at: int)
    ensures StatesAbout(id, states, AppendDeletedState(states, id, at))
  {
  }

  /** A step about one segment leaves the rows, projection and deletion row of every other segment alone. */
  ghost predicate OnlyAbout(
      id: nat, r0: RetentionLog, r1: RetentionLog, s0: map<nat, Entry<StateRow>>, s1: map<nat, Entry<StateRow>>,
      t0: ShownLog, t1: ShownLog)
  {
    RowsAbout(id, r0, r1) && StatusAbout(id, s0, s1) && StatesAbout(id, t0, t1)
  }

  ghost predicate RowsAbout(id: nat, r0: RetentionLog, r1: RetentionLog) {
    forall other {:trigger PlannedBefore(r1, other)} :: other != id ==>
        (PlannedBefore(r1, other) <==> PlannedBefore(r0, other))
  }

  ghost predicate StatusAbout(id: nat, s0: map<nat, Entry<StateRow>>, s1: map<nat, Entry<StateRow>>) {
    forall other :: other != id ==> (other in s1 <==> other in s0) && (other in s0 ==> s1[other] == s0[other])
  }

  ghost predicate StatesAbout(id: nat, t0: ShownLog, t1: ShownLog) {
    forall other {:trigger DeletedState(t1, other)} :: other != id ==>
        DeletedState(t1, other) == DeletedState(t0, other)
  }

  // ----- runs -----

  /**
   A retention run, or what else changes segments, files and states meanwhile. Nothing in the repository writes the
   rows of `Restore` and `MarkMissing`; a source that is delivered again only brings its file back.
   */
  datatype Step =
    | Retain(due: bool, backup: Option<Backup>, cutoff: int, limit: nat)
    | Accept(segment: ManagedFile, contents: Contents)
    | Restore(id: nat, contents: Contents)
    | Redeliver(id: nat, contents: Contents)
    | MarkMissing(id: nat)

  /** Under any faults, in every reachable state each deletion followed a plan and the logs and projection agree. */
  method Run(manager: Manager, steps: seq<Step>)
    requires manager.Valid()
    modifies manager, manager.faults
    ensures manager.Valid()
  {
    for k := 0 to |steps|
      invariant manager.Valid()
    {
      RunStep(manager, steps[k]);
    }
  }

  method RunStep(manager: Manager, step: Step)
    requires manager.Valid()
    modifies manager, manager.faults
    ensures manager.Valid()
  {
    match step
    case Retain(due, backup, cutoff, limit) =>
      ghost var ids;
      var o;
      o, ids := manager.RetentionOnce(due, backup, cutoff, limit);
    case Accept(segment, contents) =>
      if NewPath(manager.segments, segment.path) {
        manager.segments := manager.segments + [segment];
        manager.files := manager.files[segment.path := contents];
        var o := manager.AppendMediaState(|manager.segments|, Accepted);
      }
    case Restore(id, contents) =>
      if 1 <= id <= |manager.segments| {
        manager.files := manager.files[manager.segments[id - 1].path := contents];
        var o := manager.AppendMediaState(id, Restored);
      }
    case Redeliver(id, contents) =>
      if 1 <= id <= |manager.segments| {
        manager.files := manager.files[manager.segments[id - 1].path := contents];
      }
    case MarkMissing(id) =>
      if 1 <= id <= |manager.segments| {
        var o := manager.AppendMediaState(id, Missing);
      }
  }
}
