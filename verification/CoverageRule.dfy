/**
 What coverage of a collector means, stated instant by instant and without reference to any sweep.
 Instants are integers (nanoseconds); `ZERO_TIME` is Go's zero `time.Time`.
 */
module CoverageRule {
  import opened Ordering

  const ZERO_TIME := 0

  datatype Availability = Covered | ConfirmedIdle | Pending | Delayed | Offline | Unknown

  datatype Fact = Fact(
    start: int, end: int, availability: Availability,
    flags: seq<string>, reason: string, priority: int, stableId: string)

  /** The three durations of a collector's configuration. */
  datatype Collector = Collector(heartbeat: int, lateness: int, offline: int)

  const SECOND := 1_000_000_000
  const HOUR := 3600 * SECOND

  /** The deadlines come in order. */
  predicate Sensible(c: Collector) {
    0 < c.heartbeat && 0 <= c.lateness && c.heartbeat + c.lateness <= c.offline
  }

  /** The collectors that an accepted configuration can have. */
  predicate Configured(c: Collector) {
    && SECOND <= c.heartbeat <= 600 * SECOND && 0 <= c.lateness <= HOUR && SECOND <= c.offline <= 24 * HOUR
    && c.heartbeat + c.lateness <= c.offline
  }

  /** One window of the planned schedule on one date, already expanded to instants. */
  datatype Window = Window(start: int, end: int)

  datatype Label = Label(availability: Availability, flags: seq<string>, reason: string)

  datatype Interval = Interval(start: int, end: int, verdict: Label)

  predicate ValidFact(f: Fact) {
    f.start < f.end && (f.availability == Covered || f.availability == ConfirmedIdle)
  }

  // ----- the planned schedule -----

  predicate InWindow(w: Window, t: int) {
    w.start <= t < w.end
  }

  /** `t` was asked for and some window plans it. */
  ghost predicate Planned(windows: seq<Window>, rangeStart: int, rangeEnd: int, t: int) {
    rangeStart <= t < rangeEnd && exists w :: w in windows && InWindow(w, t)
  }

  /** Window `w`, cut to the range, is joined to `t` by planned instants only. */
  ghost predicate Reaches(windows: seq<Window>, rangeStart: int, rangeEnd: int, w: Window, t: int) {
    && w in windows
    && Max(w.start, rangeStart) < Min(w.end, rangeEnd)
    && forall u :: Min(Max(w.start, rangeStart), t) <= u <= Max(Max(w.start, rangeStart), t)
                   ==> Planned(windows, rangeStart, rangeEnd, u)
  }

  /** `s` is the earliest unclipped start among the windows joined to `t`. */
  ghost predicate IsScheduleStart(windows: seq<Window>, rangeStart: int, rangeEnd: int, t: int, s: int) {
    && (exists w :: Reaches(windows, rangeStart, rangeEnd, w, t) && w.start == s)
    && forall w :: Reaches(windows, rangeStart, rangeEnd, w, t) ==> s <= w.start
  }

  // ----- the rule for one instant -----

  /** `f` is preferred to `g`: higher priority, then smaller stable id. */
  predicate Outranks(f: Fact, g: Fact) {
    f.priority > g.priority || (f.priority == g.priority && TextLess(f.stableId, g.stableId))
  }

  ghost function CoveringAt(facts: set<Fact>, t: int): set<Fact> {
    set f | f in facts && f.start <= t < f.end
  }

  /** `e` is the latest fact end at or before `t`, or the zero time when there is none after it. */
  ghost predicate LastEvidence(facts: set<Fact>, t: int, e: int) {
    && ZERO_TIME <= e
    && (e == ZERO_TIME || (e <= t && exists f :: f in facts && f.end == e))
    && forall f :: f in facts && f.end <= t ==> f.end <= e
  }

  /** What the heartbeat clock says at `t` when counted from `reference`. */
  function ClockLabel(c: Collector, reference: int, now: int, t: int): Label {
    if t >= now then Label(Pending, [], "SCHEDULED_FUTURE")
    else if now < reference + c.heartbeat + c.lateness then Label(Pending, [], "AWAITING_HEARTBEAT")
    else if t < reference + c.heartbeat then Label(Unknown, [], "HEARTBEAT_MISSING")
    else if t < reference + c.offline then Label(Delayed, [], "HEARTBEAT_LATE")
    else Label(Offline, [], "HEARTBEAT_OFFLINE")
  }

  /** `flags` lists exactly `names`, in order and without repeats. */
  ghost predicate Normal(flags: seq<string>, names: set<string>) {
    Increasing(flags) && Members(flags) == names
  }

  ghost function FlagsOf(covering: set<Fact>): set<string> {
    set f, x | f in covering && x in f.flags :: x
  }

  ghost predicate TopRanked(covering: set<Fact>, f: Fact) {
    f in covering && forall g :: g in covering ==> !Outranks(g, f)
  }

  ghost predicate LabelFrom(
      c: Collector, scheduleStart: int, now: int, facts: set<Fact>, covering: set<Fact>, t: int, verdict: Label)
  {
    if covering == {} then
      exists e :: LastEvidence(facts, t, e)
          && verdict == ClockLabel(c, if e == ZERO_TIME then scheduleStart else e, now, t)
    else
      && (exists f :: TopRanked(covering, f) && verdict.availability == f.availability && verdict.reason == f.reason)
      && Normal(verdict.flags, FlagsOf(covering))
  }

  /** The label of a planned instant `t`. */
  ghost predicate RuleLabel(c: Collector, scheduleStart: int, now: int, facts: set<Fact>, t: int, verdict: Label) {
    LabelFrom(c, scheduleStart, now, facts, CoveringAt(facts, t), t, verdict)
  }

  // ----- the partition -----

  predicate Contains(i: Interval, t: int) {
    i.start <= t < i.end
  }

  /** Some interval of `r` contains `t` and carries `l`. */
  ghost predicate Labels(r: seq<Interval>, t: int, l: Label) {
    exists i :: 0 <= i < |r| && Contains(r[i], t) && r[i].verdict == l
  }

  /** Positive, ordered, disjoint, and no two touching neighbours carry the same label. */
  ghost predicate Canonical(r: seq<Interval>) {
    && (forall i :: 0 <= i < |r| ==> r[i].start < r[i].end)
    && (forall i, j :: 0 <= i < j < |r| ==> r[i].end <= r[j].start)
    && (forall i :: 0 < i < |r| && r[i - 1].end == r[i].start ==> r[i - 1].verdict != r[i].verdict)
  }

  /** The label an interval gives to the instant `t` is the rule's. */
  ghost predicate Correct(
      c: Collector, windows: seq<Window>, rangeStart: int, rangeEnd: int, now: int, facts: set<Fact>, t: int,
      verdict: Label)
  {
    && Planned(windows, rangeStart, rangeEnd, t)
    && exists s :: IsScheduleStart(windows, rangeStart, rangeEnd, t, s) && RuleLabel(c, s, now, facts, t, verdict)
  }

  /** `r` is the coarsest labelled partition of the planned instants of the range. */
  ghost predicate IsCoverage(
      c: Collector, windows: seq<Window>, rangeStart: int, rangeEnd: int, now: int, facts: set<Fact>, r: seq<Interval>)
  {
    && Canonical(r)
    && (forall i, t :: 0 <= i < |r| && Contains(r[i], t) ==>
        Correct(c, windows, rangeStart, rangeEnd, now, facts, t, r[i].verdict))
    && (forall t :: Planned(windows, rangeStart, rangeEnd, t) ==> exists i :: 0 <= i < |r| && Contains(r[i], t))
  }
}
