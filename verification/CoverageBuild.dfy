/** The coverage sweep: cut the planned windows at finitely many points, label each piece once, merge. */
module CoverageBuild {
  import opened Ordering
  import opened CoverageRule

  datatype BuildError = RangeNotPositive | FactInvalid
  datatype BuildResult = Built(intervals: seq<Interval>) | Failed(error: BuildError)

  /** A planned interval cut to the range, with the start its schedule had before the cut. */
  datatype Plan = Plan(start: int, end: int, scheduleStart: int)

  // ----- flags -----

  method NormalizeFlags(values: seq<string>) returns (result: seq<string>)
    ensures Normal(result, Members(values))
  {
    var seen: set<string> := {};
    for i := 0 to |values|
      invariant seen == Members(values[..i])
    {
      assert values[..i + 1] == values[..i] + [values[i]];
      seen := seen + {values[i]};
    }
    assert values[..|values|] == values;
    var unsorted := AnyOrder(seen);
    TextPreorder();
    result := SortSlice(unsorted, TextAtMost);
    SameMultiset(result, unsorted);
    SortedDistinctIncreasing(unsorted, result);
    assert Members(result) == Members(unsorted);
  }

  /** Ranging over the map's keys: each once, in no particular order. */
  method AnyOrder(seen: set<string>) returns (unsorted: seq<string>)
    ensures Members(unsorted) == seen
    ensures forall i, j :: 0 <= i < j < |unsorted| ==> unsorted[i] != unsorted[j]
  {
    unsorted := [];
    var remaining := seen;
    while remaining != {}
      invariant remaining <= seen
      invariant Members(unsorted) == seen - remaining
      invariant forall i, j :: 0 <= i < j < |unsorted| ==> unsorted[i] != unsorted[j]
      decreases |remaining|
    {
      var value :| value in remaining;
      assert value !in Members(unsorted);
      assert Members(unsorted + [value]) == Members(unsorted) + {value};
      remaining := remaining - {value};
      unsorted := unsorted + [value];
    }
  }

  predicate TextAtMost(a: string, b: string) {
    !TextLess(b, a)
  }

  lemma TextPreorder()
    ensures TotalPreorder(TextAtMost)
  {
    TextOrder();
  }

  lemma SortedDistinctIncreasing(unsorted: seq<string>, sorted: seq<string>)
    requires forall i, j :: 0 <= i < j < |unsorted| ==> unsorted[i] != unsorted[j]
    requires multiset(sorted) == multiset(unsorted)
    requires Sorted(TextAtMost, sorted)
    ensures Increasing(sorted)
  {
    forall i, j | 0 <= i < j < |sorted|
      ensures TextLess(sorted[i], sorted[j])
    {
      assert TextAtMost(sorted[i], sorted[j]);
      TextTrichotomy(sorted[i], sorted[j]);
      if sorted[i] == sorted[j] {
        RepeatCountsTwice(sorted, i, j);
        DistinctCountsOnce(unsorted, sorted[i]);
        assert false;
      }
    }
  }

  // ----- planned intervals -----

  function Clip(w: Window, rangeStart: int, rangeEnd: int): Plan {
    Plan(Max(w.start, rangeStart), Min(w.end, rangeEnd), w.start)
  }

  predicate StartsNoLater(a: Plan, b: Plan) {
    a.start <= b.start
  }

  predicate InPlan(p: Plan, t: int) {
    p.start <= t < p.end
  }

  /** Positive, ordered, with at least one instant between neighbours. */
  ghost predicate Separated(plans: seq<Plan>) {
    && (forall i :: 0 <= i < |plans| ==> plans[i].start < plans[i].end)
    && (forall i, j :: 0 <= i < j < |plans| ==> plans[i].end < plans[j].start)
  }

  /** `merged` joins the positive pieces `pieces` wherever they overlap or touch. */
  ghost predicate Merges(pieces: seq<Plan>, merged: seq<Plan>) {
    && Separated(merged)
    && (forall p {:trigger Absorbed(p, merged)} :: p in pieces ==> Absorbed(p, merged))
    && (forall i, t {:trigger InSome(pieces, t), merged[i]} :: 0 <= i < |merged| && InPlan(merged[i], t) ==>
        InSome(pieces, t))
    && (forall i {:trigger Sourced(merged[i], pieces)} :: 0 <= i < |merged| ==> Sourced(merged[i], pieces))
  }

  ghost predicate InSome(plans: seq<Plan>, t: int) {
    exists i :: 0 <= i < |plans| && InPlan(plans[i], t)
  }

  ghost predicate Absorbed(p: Plan, merged: seq<Plan>) {
    exists i :: 0 <= i < |merged| && Within(p, merged[i])
  }

  predicate Within(p: Plan, m: Plan) {
    m.start <= p.start && p.end <= m.end && m.scheduleStart <= p.scheduleStart
  }

  ghost predicate Sourced(m: Plan, pieces: seq<Plan>) {
    exists p :: p in pieces && InPlan(m, p.start) && p.scheduleStart == m.scheduleStart
  }

  method PlannedIntervals(windows: seq<Window>, rangeStart: int, rangeEnd: int) returns (merged: seq<Plan>)
    requires rangeStart < rangeEnd
    ensures Separated(merged)
    ensures forall t :: Planned(windows, rangeStart, rangeEnd, t) <==> InSome(merged, t)
    ensures forall i, t :: 0 <= i < |merged| && InPlan(merged[i], t) ==>
              IsScheduleStart(windows, rangeStart, rangeEnd, t, merged[i].scheduleStart)
  {
    var intervals: seq<Plan> := [];
    for k := 0 to |windows|
      invariant ClippedWindows(windows[..k], rangeStart, rangeEnd, intervals)
    {
      assert windows[..k + 1] == windows[..k] + [windows[k]];
      var p := Clip(windows[k], rangeStart, rangeEnd);
      if p.start < p.end {
        intervals := intervals + [p];
      }
    }
    assert windows[..|windows|] == windows;
    var sorted := SortPlans(intervals);
    merged := MergeSorted(sorted);
    forall t
      ensures Planned(windows, rangeStart, rangeEnd, t) <==> InSome(merged, t)
    {
      PlannedIffMerged(windows, rangeStart, rangeEnd, sorted, merged, t);
    }
    forall i, t | 0 <= i < |merged| && InPlan(merged[i], t)
      ensures IsScheduleStart(windows, rangeStart, rangeEnd, t, merged[i].scheduleStart)
    {
      MergedScheduleStart(windows, rangeStart, rangeEnd, sorted, merged, i, t);
    }
  }

  method SortPlans(plans: seq<Plan>) returns (sorted: seq<Plan>)
    ensures forall i, j :: 0 <= i < j < |sorted| ==> sorted[i].start <= sorted[j].start
    ensures forall p :: p in sorted <==> p in plans
  {
    sorted := SortSlice(plans, StartsNoLater);
    SameMultiset(sorted, plans);
    forall i, j | 0 <= i < j < |sorted|
      ensures sorted[i].start <= sorted[j].start
    {
      assert StartsNoLater(sorted[i], sorted[j]);
    }
  }

  method MergeSorted(sorted: seq<Plan>) returns (merged: seq<Plan>)
    requires forall i, j :: 0 <= i < j < |sorted| ==> sorted[i].start <= sorted[j].start
    requires forall p :: p in sorted ==> p.start < p.end
    ensures Merges(sorted, merged)
  {
    merged := [];
    for k := 0 to |sorted|
      invariant Merges(sorted[..k], merged)
      invariant merged != [] ==> forall j :: k <= j < |sorted| ==> merged[|merged| - 1].start <= sorted[j].start
    {
      assert sorted[..k + 1] == sorted[..k] + [sorted[k]];
      assert sorted[k] in sorted;
      merged := MergeNext(sorted[..k], merged, sorted[k]);
    }
    assert sorted[..|sorted|] == sorted;
  }

  /** One more piece: it begins a new interval, or extends the last one. */
  method MergeNext(ghost pieces: seq<Plan>, merged: seq<Plan>, interval: Plan) returns (result: seq<Plan>)
    requires Merges(pieces, merged) && interval.start < interval.end
    requires merged != [] ==> merged[|merged| - 1].start <= interval.start
    ensures Merges(pieces + [interval], result)
    ensures result != [] && result[|result| - 1].start <= interval.start
  {
    if |merged| == 0 || interval.start > merged[|merged| - 1].end {
      AppendKeepsMerges(pieces, merged, interval);
      result := merged + [interval];
    } else {
      var last := merged[|merged| - 1];
      ExtendKeepsMerges(pieces, merged, interval);
      if interval.scheduleStart < last.scheduleStart {
        last := last.(scheduleStart := interval.scheduleStart);
      }
      if interval.end > last.end {
        last := last.(end := interval.end);
      }
      result := merged[|merged| - 1 := last];
    }
  }

  lemma InSomeKept(before: seq<Plan>, after: seq<Plan>, t: int)
    requires InSome(before, t)
    requires |before| <= |after| && forall i :: 0 <= i < |before| ==>
               after[i].start <= before[i].start && before[i].end <= after[i].end
    ensures InSome(after, t)
  {
  }

  lemma AbsorbedKept(p: Plan, before: seq<Plan>, after: seq<Plan>)
    requires Absorbed(p, before)
    requires |before| <= |after| && forall i :: 0 <= i < |before| ==> Within(before[i], after[i])
    ensures Absorbed(p, after)
  {
  }

  /** A piece that starts after the last merged interval has ended opens a new one. */
  lemma AppendKeepsMerges(pieces: seq<Plan>, merged: seq<Plan>, next: Plan)
    requires Merges(pieces, merged)
    requires next.start < next.end
    requires merged != [] ==> merged[|merged| - 1].end < next.start
    ensures Merges(pieces + [next], merged + [next])
  {
    var pieces', merged' := pieces + [next], merged + [next];
    assert next in pieces' && next == pieces'[|pieces|] && Within(next, merged'[|merged|]);
    assert Separated(merged');
    forall p | p in pieces'
      ensures Absorbed(p, merged')
    {
      if p in pieces {
        assert Absorbed(p, merged);
        AbsorbedKept(p, merged, merged');
      }
    }
    forall i, t | 0 <= i < |merged'| && InPlan(merged'[i], t)
      ensures InSome(pieces', t)
    {
      if i < |merged| {
        assert InPlan(merged[i], t) && InSome(pieces, t);
        InSomeKept(pieces, pieces', t);
      } else {
        assert InPlan(pieces'[|pieces|], t);
      }
    }
    forall i | 0 <= i < |merged'|
      ensures Sourced(merged'[i], pieces')
    {
      if i < |merged| {
        assert Sourced(merged[i], pieces);
      } else {
        assert InPlan(next, next.start);
      }
    }
  }

  function Joined(last: Plan, next: Plan): Plan {
    Plan(last.start, Max(last.end, next.end), Min(last.scheduleStart, next.scheduleStart))
  }

  /** A piece that overlaps or touches the last merged interval is joined to it. */
  lemma ExtendKeepsMerges(pieces: seq<Plan>, merged: seq<Plan>, next: Plan)
    requires Merges(pieces, merged)
    requires next.start < next.end
    requires merged != [] && merged[|merged| - 1].start <= next.start <= merged[|merged| - 1].end
    ensures Merges(pieces + [next], merged[|merged| - 1 := Joined(merged[|merged| - 1], next)])
  {
    var n := |merged| - 1;
    var last, pieces' := merged[n], pieces + [next];
    var merged' := merged[n := Joined(last, next)];
    assert next == pieces'[|pieces|] && Within(next, merged'[n]) && Within(last, merged'[n]);
    assert Separated(merged');
    forall p | p in pieces'
      ensures Absorbed(p, merged')
    {
      if p in pieces {
        assert Absorbed(p, merged);
        AbsorbedKept(p, merged, merged');
      }
    }
    forall i, t | 0 <= i < |merged'| && InPlan(merged'[i], t)
      ensures InSome(pieces', t)
    {
      if InPlan(merged[i], t) {
        assert InSome(pieces, t);
        InSomeKept(pieces, pieces', t);
      } else {
        assert InPlan(pieces'[|pieces|], t);
      }
    }
    forall i | 0 <= i < |merged'|
      ensures Sourced(merged'[i], pieces')
    {
      assert Sourced(merged[i], pieces);
      if i < n {
      } else if next.scheduleStart < last.scheduleStart {
        assert next in pieces' && InPlan(merged'[n], next.start);
      } else {
        var p :| p in pieces && InPlan(last, p.start) && p.scheduleStart == last.scheduleStart;
        assert p in pieces' && InPlan(merged'[n], p.start);
      }
    }
  }

  /** `pieces` are exactly the positive clipped windows. */
  ghost predicate ClippedWindows(windows: seq<Window>, rangeStart: int, rangeEnd: int, pieces: seq<Plan>) {
    && (forall p :: p in pieces ==> p.start < p.end && exists w :: w in windows && p == Clip(w, rangeStart, rangeEnd))
    && (forall w :: w in windows && Clip(w, rangeStart, rangeEnd).start < Clip(w, rangeStart, rangeEnd).end
                    ==> Clip(w, rangeStart, rangeEnd) in pieces)
  }

  lemma PlannedIffMerged(
      windows: seq<Window>, rangeStart: int, rangeEnd: int, pieces: seq<Plan>, merged: seq<Plan>, t: int)
    requires ClippedWindows(windows, rangeStart, rangeEnd, pieces)
    requires Merges(pieces, merged)
    ensures Planned(windows, rangeStart, rangeEnd, t) <==> InSome(merged, t)
  {
    if Planned(windows, rangeStart, rangeEnd, t) {
      var w :| w in windows && InWindow(w, t);
      var p := Clip(w, rangeStart, rangeEnd);
      assert Absorbed(p, merged);
      var i :| 0 <= i < |merged| && Within(p, merged[i]);
      assert InPlan(merged[i], t);
    }
    if i :| 0 <= i < |merged| && InPlan(merged[i], t) {
      assert InSome(pieces, t);
      var k :| 0 <= k < |pieces| && InPlan(pieces[k], t);
      assert pieces[k] in pieces;
      var w :| w in windows && pieces[k] == Clip(w, rangeStart, rangeEnd);
      assert InWindow(w, t);
    }
  }

  /** The merged schedule start is the earliest start among the windows joined to `t`. */
  lemma MergedScheduleStart(
      windows: seq<Window>, rangeStart: int, rangeEnd: int, pieces: seq<Plan>, merged: seq<Plan>, i: nat, t: int)
    requires ClippedWindows(windows, rangeStart, rangeEnd, pieces)
    requires Merges(pieces, merged)
    requires i < |merged| && InPlan(merged[i], t)
    ensures IsScheduleStart(windows, rangeStart, rangeEnd, t, merged[i].scheduleStart)
  {
    assert Sourced(merged[i], pieces);
    var p :| p in pieces && InPlan(merged[i], p.start) && p.scheduleStart == merged[i].scheduleStart;
    var w :| w in windows && p == Clip(w, rangeStart, rangeEnd);
    forall u | Min(p.start, t) <= u <= Max(p.start, t)
      ensures Planned(windows, rangeStart, rangeEnd, u)
    {
      assert InPlan(merged[i], u);
      PlannedIffMerged(windows, rangeStart, rangeEnd, pieces, merged, u);
    }
    assert Reaches(windows, rangeStart, rangeEnd, w, t);
    forall v | Reaches(windows, rangeStart, rangeEnd, v, t)
      ensures merged[i].scheduleStart <= v.start
    {
      ReachingWindowIsWithin(windows, rangeStart, rangeEnd, pieces, merged, i, t, v);
    }
  }

  /** Where a merged interval ends nothing is planned. */
  lemma EndIsGap(windows: seq<Window>, rangeStart: int, rangeEnd: int, pieces: seq<Plan>, merged: seq<Plan>, i: nat)
    requires ClippedWindows(windows, rangeStart, rangeEnd, pieces) && Merges(pieces, merged) && i < |merged|
    ensures !Planned(windows, rangeStart, rangeEnd, merged[i].end)
  {
    var gap := merged[i].end;
    PlannedIffMerged(windows, rangeStart, rangeEnd, pieces, merged, gap);
    forall k | 0 <= k < |merged|
      ensures !InPlan(merged[k], gap)
    {
    }
  }

  /** A window joined to an instant of a merged interval lies in that interval: elsewhere a gap separates them. */
  lemma ReachingWindowIsWithin(
      windows: seq<Window>, rangeStart: int, rangeEnd: int, pieces: seq<Plan>, merged: seq<Plan>, i: nat, t: int,
      v: Window)
    requires ClippedWindows(windows, rangeStart, rangeEnd, pieces)
    requires Merges(pieces, merged)
    requires i < |merged| && InPlan(merged[i], t)
    requires Reaches(windows, rangeStart, rangeEnd, v, t)
    ensures Within(Clip(v, rangeStart, rangeEnd), merged[i])
  {
    var q := Clip(v, rangeStart, rangeEnd);
    assert Absorbed(q, merged);
    var j :| 0 <= j < |merged| && Within(q, merged[j]);
    if j != i {
      EndIsGap(windows, rangeStart, rangeEnd, pieces, merged, if j < i then j else i);
      assert false;
    }
  }

  // ----- cut points -----

  /** An instant at which the rule may change inside a plan: a fact edge, a deadline, or the clock. */
  ghost predicate IsCut(c: Collector, scheduleStart: int, now: int, facts: set<Fact>, x: int) {
    || x == now
    || Deadline(c, scheduleStart, x)
    || exists f :: f in facts && FactCut(c, f, x)
  }

  predicate Deadline(c: Collector, reference: int, x: int) {
    x == reference + c.heartbeat || x == reference + c.heartbeat + c.lateness || x == reference + c.offline
  }

  predicate FactCut(c: Collector, f: Fact, x: int) {
    x == f.start || x == f.end || Deadline(c, f.end, x)
  }

  ghost predicate NoCutInside(c: Collector, scheduleStart: int, now: int, facts: set<Fact>, start: int, end: int) {
    forall x :: start < x < end ==> !IsCut(c, scheduleStart, now, facts, x)
  }

  ghost function Spanning(facts: set<Fact>, start: int, end: int): set<Fact> {
    set f | f in facts && f.start <= start && end <= f.end
  }

  /**
   The finite cut points suffice: between two of them, the label computed once from the facts that span
   the whole piece is the rule's label at every instant of the piece.
   */
  lemma OneLabelPerPiece(
      c: Collector, scheduleStart: int, now: int, facts: set<Fact>, start: int, end: int, t: int, verdict: Label)
    requires start <= t < end
    requires NoCutInside(c, scheduleStart, now, facts, start, end)
    requires LabelFrom(c, scheduleStart, now, facts, Spanning(facts, start, end), start, verdict)
    ensures RuleLabel(c, scheduleStart, now, facts, t, verdict)
  {
    forall f | f in facts
      ensures f in Spanning(facts, start, end) <==> f in CoveringAt(facts, t)
    {
      if start < f.start < end { assert FactCut(c, f, f.start); assert IsCut(c, scheduleStart, now, facts, f.start); }
      if start < f.end < end { assert FactCut(c, f, f.end); assert IsCut(c, scheduleStart, now, facts, f.end); }
    }
    assert Spanning(facts, start, end) == CoveringAt(facts, t);
    if CoveringAt(facts, t) == {} {
      var e :| LastEvidence(facts, start, e)
          && verdict == ClockLabel(c, if e == ZERO_TIME then scheduleStart else e, now, start);
      forall f | f in facts && f.end <= t
        ensures f.end <= e
      {
        if start < f.end { assert FactCut(c, f, f.end); assert IsCut(c, scheduleStart, now, facts, f.end); }
      }
      assert LastEvidence(facts, t, e);
      var reference := if e == ZERO_TIME then scheduleStart else e;
      forall x | start < x < end
        ensures !Deadline(c, reference, x)
      {
        assert !IsCut(c, scheduleStart, now, facts, x);
        if e != ZERO_TIME {
          var f :| f in facts && f.end == e;
          assert !FactCut(c, f, x);
        }
      }
      assert start < now < end ==> !IsCut(c, scheduleStart, now, facts, now);
      SameSideOfDeadlines(c, reference, now, start, end, t);
    }
  }

  lemma SameSideOfDeadlines(c: Collector, reference: int, now: int, start: int, end: int, t: int)
    requires start <= t < end
    requires !(start < now < end)
    requires forall x :: start < x < end ==> !Deadline(c, reference, x)
    ensures ClockLabel(c, reference, now, start) == ClockLabel(c, reference, now, t)
  {
    assert !(start < now <= t);
    assert Deadline(c, reference, reference + c.heartbeat);
    assert Deadline(c, reference, reference + c.offline);
  }

  /** `points` runs through the plan from start to end and misses no cut. */
  ghost predicate CutsPlan(c: Collector, plan: Plan, now: int, facts: set<Fact>, points: seq<int>) {
    && plan.start in points && plan.end in points
    && (forall x :: x in points ==> plan.start <= x <= plan.end)
    && forall x :: plan.start < x < plan.end && IsCut(c, plan.scheduleStart, now, facts, x) ==> x in points
  }

  method AddDeadlines(points: seq<int>, plan: Plan, deadlines: seq<int>) returns (result: seq<int>)
    ensures forall x :: x in result <==> x in points || (x in deadlines && plan.start < x < plan.end)
  {
    result := points;
    for i := 0 to |deadlines|
      invariant forall x :: x in result <==> x in points || (x in deadlines[..i] && plan.start < x < plan.end)
    {
      assert deadlines[..i + 1] == deadlines[..i] + [deadlines[i]];
      if plan.start < deadlines[i] < plan.end {
        result := result + [deadlines[i]];
      }
    }
    assert deadlines[..|deadlines|] == deadlines;
  }

  method CutPoints(c: Collector, plan: Plan, now: int, facts: seq<Fact>) returns (points: seq<int>)
    requires plan.start < plan.end
    requires forall f :: f in facts ==> f.start < f.end
    ensures CutsPlan(c, plan, now, Members(facts), points)
  {
    points := [plan.start, plan.end];
    for i := 0 to |facts|
      invariant plan.start in points && plan.end in points
      invariant forall x :: x in points ==> plan.start <= x <= plan.end
      invariant forall f, x :: f in facts[..i] && FactCut(c, f, x) && plan.start < x < plan.end ==> x in points
    {
      var fact := facts[i];
      ghost var before := points;
      assert facts[..i + 1] == facts[..i] + [fact];
      if fact.end > plan.start && fact.start < plan.end {
        points := points + [Max(plan.start, fact.start), Min(plan.end, fact.end)];
        assert points[|points| - 2] == Max(plan.start, fact.start);
        assert points[|points| - 1] == Min(plan.end, fact.end);
      }
      assert forall x :: x in before ==> x in points;
      var deadlines := [fact.end + c.heartbeat, fact.end + c.heartbeat + c.lateness, fact.end + c.offline];
      assert deadlines[0] in deadlines && deadlines[1] in deadlines && deadlines[2] in deadlines;
      points := AddDeadlines(points, plan, deadlines);
      forall f, x | f in facts[..i + 1] && FactCut(c, f, x) && plan.start < x < plan.end
        ensures x in points
      {
        if f == fact {
        } else {
          assert x in before;
        }
      }
    }
    assert facts[..|facts|] == facts;
    var s := plan.scheduleStart;
    var deadlines := [s + c.heartbeat, s + c.heartbeat + c.lateness, s + c.offline, now];
    assert deadlines[0] in deadlines && deadlines[1] in deadlines && deadlines[2] in deadlines
        && deadlines[3] in deadlines;
    points := AddDeadlines(points, plan, deadlines);
  }

  predicate AtMost(a: int, b: int) {
    a <= b
  }

  method SortTimes(values: seq<int>) returns (sorted: seq<int>)
    ensures forall i, j :: 0 <= i < j < |sorted| ==> sorted[i] <= sorted[j]
    ensures forall x :: x in sorted <==> x in values
  {
    sorted := SortSlice(values, AtMost);
    SameMultiset(sorted, values);
    forall i, j | 0 <= i < j < |sorted|
      ensures sorted[i] <= sorted[j]
    {
      assert AtMost(sorted[i], sorted[j]);
    }
  }

  method UniqueTimes(values: seq<int>) returns (result: seq<int>)
    ensures forall i, j :: 0 <= i < j < |result| ==> result[i] < result[j]
    ensures forall x :: x in result <==> x in values
  {
    var sorted := SortTimes(values);
    result := [];
    for k := 0 to |sorted|
      invariant forall i, j :: 0 <= i < j < |result| ==> result[i] < result[j]
      invariant forall x :: x in result <==> x in sorted[..k]
      invariant result != [] ==> forall j :: k <= j < |sorted| ==> result[|result| - 1] <= sorted[j]
    {
      assert sorted[..k + 1] == sorted[..k] + [sorted[k]];
      if |result| == 0 || result[|result| - 1] != sorted[k] {
        result := result + [sorted[k]];
      } else {
        assert sorted[k] in result;
      }
    }
    assert sorted[..|sorted|] == sorted;
  }

  // ----- one piece -----

  predicate RankedNoLower(f: Fact, g: Fact) {
    !Outranks(g, f)
  }

  lemma RankPreorder()
    ensures TotalPreorder(RankedNoLower)
  {
    TextOrder();
  }

  method ClassifySegment(c: Collector, planStart: int, start: int, end: int, now: int, facts: seq<Fact>)
    returns (verdict: Label)
    ensures LabelFrom(c, planStart, now, Members(facts), Spanning(Members(facts), start, end), start, verdict)
  {
    var covering: seq<Fact> := [];
    var lastEvidenceEnd := ZERO_TIME;
    for i := 0 to |facts|
      invariant forall f :: f in covering <==> f in facts[..i] && f.start <= start && end <= f.end
      invariant LastEvidence(Members(facts[..i]), start, lastEvidenceEnd)
    {
      var fact := facts[i];
      assert facts[..i + 1] == facts[..i] + [fact];
      assert fact in Members(facts[..i + 1]);
      assert forall f :: f in Members(facts[..i]) ==> f in Members(facts[..i + 1]);
      if fact.start <= start && end <= fact.end {
        covering := covering + [fact];
      }
      if fact.end <= start && fact.end > lastEvidenceEnd {
        lastEvidenceEnd := fact.end;
      }
    }
    assert facts[..|facts|] == facts;
    ghost var spanning := Spanning(Members(facts), start, end);
    assert spanning == Members(covering);
    if |covering| > 0 {
      assert covering[0] in spanning;
      verdict := ClassifyCovered(covering);
      assert LabelFrom(c, planStart, now, Members(facts), spanning, start, verdict);
      return;
    }
    assert spanning == {};
    if start >= now {
      return Label(Pending, [], "SCHEDULED_FUTURE");
    }
    var reference := if lastEvidenceEnd == ZERO_TIME then planStart else lastEvidenceEnd;
    var expected := reference + c.heartbeat;
    var lateDeadline := expected + c.lateness;
    var offlineDeadline := reference + c.offline;
    if now < lateDeadline {
      return Label(Pending, [], "AWAITING_HEARTBEAT");
    }
    if start < expected {
      return Label(Unknown, [], "HEARTBEAT_MISSING");
    }
    if start < offlineDeadline {
      return Label(Delayed, [], "HEARTBEAT_LATE");
    }
    return Label(Offline, [], "HEARTBEAT_OFFLINE");
  }

  method ClassifyCovered(covering: seq<Fact>) returns (verdict: Label)
    requires |covering| > 0
    ensures exists f ::
              TopRanked(Members(covering), f) && verdict.availability == f.availability && verdict.reason == f.reason
    ensures Normal(verdict.flags, FlagsOf(Members(covering)))
  {
    RankPreorder();
    var ranked := SortSlice(covering, RankedNoLower);
    SameMultiset(ranked, covering);
    forall g | g in Members(covering)
      ensures !Outranks(g, ranked[0])
    {
      assert g in ranked;
      var j :| 0 <= j < |ranked| && ranked[j] == g;
      TextTrichotomy(g.stableId, g.stableId);
      assert j > 0 ==> RankedNoLower(ranked[0], ranked[j]);
    }
    assert ranked[0] in ranked;
    assert TopRanked(Members(covering), ranked[0]);
    var flags: seq<string> := [];
    for i := 0 to |ranked|
      invariant Members(flags) == FlagsOf(Members(ranked[..i]))
    {
      assert ranked[..i + 1] == ranked[..i] + [ranked[i]];
      assert Members(ranked[..i + 1]) == Members(ranked[..i]) + {ranked[i]};
      assert Members(flags + ranked[i].flags) == Members(flags) + Members(ranked[i].flags);
      flags := flags + ranked[i].flags;
    }
    assert ranked[..|ranked|] == ranked;
    assert Members(ranked) == Members(covering);
    var normalized := NormalizeFlags(flags);
    verdict := Label(ranked[0].availability, normalized, ranked[0].reason);
  }

  // ----- the sweep -----

  method AppendMerged(intervals: seq<Interval>, next: Interval) returns (result: seq<Interval>)
    requires Canonical(intervals)
    requires next.start < next.end
    requires intervals != [] ==> intervals[|intervals| - 1].end <= next.start
    ensures Canonical(result)
    ensures result != [] && result[|result| - 1].end == next.end
    ensures forall t, l :: Labels(result, t, l) <==> Labels(intervals, t, l) || (Contains(next, t) && l == next.verdict)
  {
    if |intervals| > 0 {
      var last := intervals[|intervals| - 1];
      if last.end == next.start && last.verdict == next.verdict {
        result := intervals[|intervals| - 1 := last.(end := next.end)];
        StretchedLabels(intervals, next, result);
        StretchedCanonical(intervals, next, result);
        return;
      }
    }
    result := intervals + [next];
    AppendedLabels(intervals, next, result);
    AppendedCanonical(intervals, next, result);
  }

  lemma {:induction false} StretchedCanonical(intervals: seq<Interval>, next: Interval, result: seq<Interval>)
    requires Canonical(intervals) && intervals != [] && next.start < next.end
    requires var last := intervals[|intervals| - 1];
             last.end == next.start && result == intervals[|intervals| - 1 := last.(end := next.end)]
    ensures Canonical(result)
  {
  }

  lemma {:induction false} AppendedCanonical(intervals: seq<Interval>, next: Interval, result: seq<Interval>)
    requires Canonical(intervals) && next.start < next.end && result == intervals + [next]
    requires intervals != [] ==>
               var last := intervals[|intervals| - 1];
               last.end <= next.start
               && (last.end == next.start ==> last.verdict != next.verdict)
    ensures Canonical(result)
  {
  }

  ghost predicate HasLabel(intervals: seq<Interval>, t: int) {
    exists i :: 0 <= i < |intervals| && Contains(intervals[i], t)
  }

  lemma StretchedLabels(intervals: seq<Interval>, next: Interval, result: seq<Interval>)
    requires intervals != [] && next.start < next.end
    requires var last := intervals[|intervals| - 1];
             && last.start < last.end == next.start && last.verdict == next.verdict
             && result == intervals[|intervals| - 1 := last.(end := next.end)]
    ensures forall t, l :: Labels(result, t, l) <==> Labels(intervals, t, l) || (Contains(next, t) && l == next.verdict)
  {
    forall t, l
      ensures Labels(result, t, l) <==> Labels(intervals, t, l) || (Contains(next, t) && l == next.verdict)
    {
      if i :| 0 <= i < |intervals| && Contains(intervals[i], t) && intervals[i].verdict == l {
        assert Contains(result[i], t) && result[i].verdict == l;
      }
      if Contains(next, t) && l == next.verdict {
        assert Contains(result[|result| - 1], t) && result[|result| - 1].verdict == l;
      }
      if i :| 0 <= i < |result| && Contains(result[i], t) && result[i].verdict == l {
        assert i < |result| - 1 ==> result[i] == intervals[i];
        assert Contains(intervals[i], t) || Contains(next, t);
      }
    }
  }

  lemma AppendedLabels(intervals: seq<Interval>, next: Interval, result: seq<Interval>)
    requires result == intervals + [next]
    ensures forall t, l :: Labels(result, t, l) <==> Labels(intervals, t, l) || (Contains(next, t) && l == next.verdict)
  {
    forall t, l
      ensures Labels(result, t, l) <==> Labels(intervals, t, l) || (Contains(next, t) && l == next.verdict)
    {
      if i :| 0 <= i < |intervals| && Contains(intervals[i], t) && intervals[i].verdict == l {
        assert Contains(result[i], t) && result[i].verdict == l;
      }
      if Contains(next, t) && l == next.verdict {
        assert Contains(result[|result| - 1], t) && result[|result| - 1].verdict == l;
      }
    }
  }

  /** Label one plan piece by piece and append the pieces to what earlier plans produced. */
  method SweepPlan(c: Collector, plan: Plan, now: int, facts: seq<Fact>, intervals: seq<Interval>)
    returns (result: seq<Interval>)
    requires plan.start < plan.end
    requires forall f :: f in facts ==> f.start < f.end
    requires Canonical(intervals)
    requires intervals != [] ==> intervals[|intervals| - 1].end <= plan.start
    ensures Canonical(result)
    ensures result != [] && result[|result| - 1].end == plan.end
    ensures Swept(c, plan, now, Members(facts), intervals, result, plan.end)
  {
    var unsorted := CutPoints(c, plan, now, facts);
    var points := UniqueTimes(unsorted);
    FirstAndLastPoint(plan.start, plan.end, points);
    result := intervals;
    for index := 0 to |points| - 1
      invariant Canonical(result)
      invariant result != [] ==> result[|result| - 1].end <= points[index]
      invariant index > 0 ==> result != [] && result[|result| - 1].end == points[index]
      invariant Swept(c, plan, now, Members(facts), intervals, result, points[index])
    {
      var start, end := points[index], points[index + 1];
      assert start in points && end in points;
      var verdict := ClassifySegment(c, plan.scheduleStart, start, end, now, facts);
      PieceHasNoCut(c, plan, now, Members(facts), points, index);
      ghost var before := result;
      result := AppendMerged(result, Interval(start, end, verdict));
      PieceSwept(c, plan, now, Members(facts), intervals, before, result, Interval(start, end, verdict));
    }
  }

  /** `result` keeps the labels of `intervals` and adds the rule's, at every instant of the plan before `upTo`. */
  ghost predicate Swept(
      c: Collector, plan: Plan, now: int, facts: set<Fact>, intervals: seq<Interval>, result: seq<Interval>, upTo: int)
  {
    && (forall t, l :: Labels(intervals, t, l) ==> Labels(result, t, l))
    && (forall t, l :: Labels(result, t, l) ==>
          Labels(intervals, t, l) || (InPlan(plan, t) && RuleLabel(c, plan.scheduleStart, now, facts, t, l)))
    && (forall t :: plan.start <= t < upTo ==> HasLabel(result, t))
  }

  lemma PieceSwept(
      c: Collector, plan: Plan, now: int, facts: set<Fact>, intervals: seq<Interval>, before: seq<Interval>,
      result: seq<Interval>, next: Interval)
    requires plan.start <= next.start < next.end <= plan.end
             && NoCutInside(c, plan.scheduleStart, now, facts, next.start, next.end)
    requires LabelFrom(c, plan.scheduleStart, now, facts, Spanning(facts, next.start, next.end), next.start,
               next.verdict)
    requires Swept(c, plan, now, facts, intervals, before, next.start)
    requires forall t, l :: Labels(result, t, l) <==> Labels(before, t, l) || (Contains(next, t) && l == next.verdict)
    ensures Swept(c, plan, now, facts, intervals, result, next.end)
  {
    forall t, l | Labels(result, t, l)
      ensures Labels(intervals, t, l) || (InPlan(plan, t) && RuleLabel(c, plan.scheduleStart, now, facts, t, l))
    {
      if !Labels(before, t, l) {
        OneLabelPerPiece(c, plan.scheduleStart, now, facts, next.start, next.end, t, l);
      }
    }
    forall t | plan.start <= t < next.end
      ensures HasLabel(result, t)
    {
      if t < next.start {
        LabelKept(before, result, t);
      } else {
        assert Labels(result, t, next.verdict);
      }
    }
  }

  lemma LabelKept(before: seq<Interval>, after: seq<Interval>, t: int)
    requires HasLabel(before, t) && forall l :: Labels(before, t, l) ==> Labels(after, t, l)
    ensures HasLabel(after, t)
  {
    var i :| 0 <= i < |before| && Contains(before[i], t);
    assert Labels(before, t, before[i].verdict);
    assert Labels(after, t, before[i].verdict);
  }

  lemma FirstAndLastPoint(start: int, end: int, points: seq<int>)
    requires forall i, j :: 0 <= i < j < |points| ==> points[i] < points[j]
    requires start < end && start in points && end in points
    requires forall x :: x in points ==> start <= x <= end
    ensures |points| >= 2 && points[0] == start && points[|points| - 1] == end
  {
    assert points[0] in points && points[|points| - 1] in points;
  }

  lemma PieceHasNoCut(c: Collector, plan: Plan, now: int, facts: set<Fact>, points: seq<int>, index: nat)
    requires forall i, j :: 0 <= i < j < |points| ==> points[i] < points[j]
    requires index + 1 < |points|
    requires CutsPlan(c, plan, now, facts, points)
    ensures NoCutInside(c, plan.scheduleStart, now, facts, points[index], points[index + 1])
  {
    assert points[index] in points && points[index + 1] in points;
    forall x | points[index] < x < points[index + 1]
      ensures !IsCut(c, plan.scheduleStart, now, facts, x)
    {
      assert x !in points;
    }
  }

  // ----- the facts, normalised and sorted in place -----

  /** `g` is `f` with its flags listed in order and without repeats. */
  ghost predicate Normalized(f: Fact, g: Fact) {
    g == f.(flags := g.flags) && Normal(g.flags, Members(f.flags))
  }

  ghost predicate HasNormalized(f: Fact, after: set<Fact>) {
    exists g :: g in after && Normalized(f, g)
  }

  ghost predicate IsNormalized(g: Fact, before: set<Fact>) {
    exists f :: f in before && Normalized(f, g)
  }

  ghost predicate NormalizedSets(before: set<Fact>, after: set<Fact>) {
    && (forall f {:trigger HasNormalized(f, after)} :: f in before ==> HasNormalized(f, after))
    && (forall g {:trigger IsNormalized(g, before)} :: g in after ==> IsNormalized(g, before))
  }

  lemma NormalizingKeepsFlags(before: set<Fact>, after: set<Fact>, t: int)
    requires NormalizedSets(before, after)
    ensures FlagsOf(CoveringAt(before, t)) == FlagsOf(CoveringAt(after, t))
    ensures CoveringAt(before, t) == {} <==> CoveringAt(after, t) == {}
  {
    forall f | f in CoveringAt(before, t)
      ensures CoveringAt(after, t) != {}
      ensures forall x :: x in f.flags ==> x in FlagsOf(CoveringAt(after, t))
    {
      assert HasNormalized(f, after);
      var g :| g in after && Normalized(f, g);
      assert g in CoveringAt(after, t);
      assert forall x :: x in f.flags ==> x in Members(g.flags);
    }
    forall g | g in CoveringAt(after, t)
      ensures CoveringAt(before, t) != {}
      ensures forall x :: x in g.flags ==> x in FlagsOf(CoveringAt(before, t))
    {
      assert IsNormalized(g, before);
      var f :| f in before && Normalized(f, g);
      assert f in CoveringAt(before, t);
      assert forall x :: x in g.flags ==> x in Members(g.flags);
    }
  }

  lemma NormalizingKeepsTop(before: set<Fact>, after: set<Fact>, t: int, top: Fact) returns (f: Fact)
    requires NormalizedSets(before, after)
    requires TopRanked(CoveringAt(after, t), top)
    ensures TopRanked(CoveringAt(before, t), f)
    ensures f.availability == top.availability && f.reason == top.reason
  {
    assert IsNormalized(top, before);
    f :| f in before && Normalized(f, top);
    forall g | g in CoveringAt(before, t)
      ensures !Outranks(g, f)
    {
      assert HasNormalized(g, after);
      var h :| h in after && Normalized(g, h);
      assert h in CoveringAt(after, t);
      assert Outranks(h, top) <==> Outranks(g, f);
    }
  }

  /** Normalising the flags of the facts changes no label. */
  lemma NormalizingKeepsRule(
      c: Collector, scheduleStart: int, now: int, before: set<Fact>, after: set<Fact>, t: int, verdict: Label)
    requires NormalizedSets(before, after)
    requires RuleLabel(c, scheduleStart, now, after, t, verdict)
    ensures RuleLabel(c, scheduleStart, now, before, t, verdict)
  {
    NormalizingKeepsFlags(before, after, t);
    if CoveringAt(after, t) == {} {
      var e :| LastEvidence(after, t, e)
          && verdict == ClockLabel(c, if e == ZERO_TIME then scheduleStart else e, now, t);
      NormalizingKeepsEvidence(before, after, t, e);
    } else {
      var top :| TopRanked(CoveringAt(after, t), top) && verdict.availability == top.availability
          && verdict.reason == top.reason;
      var f := NormalizingKeepsTop(before, after, t, top);
    }
  }

  lemma NormalizingKeepsEvidence(before: set<Fact>, after: set<Fact>, t: int, e: int)
    requires NormalizedSets(before, after)
    requires LastEvidence(after, t, e)
    ensures LastEvidence(before, t, e)
  {
    if e != ZERO_TIME {
      var g :| g in after && g.end == e;
      assert IsNormalized(g, before);
    }
    forall f | f in before && f.end <= t
      ensures f.end <= e
    {
      assert HasNormalized(f, after);
    }
  }

  predicate FactOrder(f: Fact, g: Fact) {
    f.start < g.start || (f.start == g.start && RankedNoLower(f, g))
  }

  lemma FactPreorder()
    ensures TotalPreorder(FactOrder)
  {
    RankPreorder();
    assert forall f, g :: RankedNoLower(f, g) || RankedNoLower(g, f);
    assert forall f, g, h :: RankedNoLower(f, g) && RankedNoLower(g, h) ==> RankedNoLower(f, h);
  }

  /** Validate every fact, normalising flags on the way; stops at the first invalid one. */
  method NormalizeFacts(facts: array<Fact>) returns (ok: bool)
    modifies facts
    ensures ok <==> forall i :: 0 <= i < facts.Length ==> ValidFact(old(facts[i]))
    ensures forall i :: 0 <= i < facts.Length ==> facts[i] == old(facts[i]) || Normalized(old(facts[i]), facts[i])
    ensures ok ==> forall i :: 0 <= i < facts.Length ==> Normalized(old(facts[i]), facts[i])
  {
    for i := 0 to facts.Length
      invariant forall k :: 0 <= k < i ==> ValidFact(old(facts[k])) && Normalized(old(facts[k]), facts[k])
      invariant forall k :: i <= k < facts.Length ==> facts[k] == old(facts[k])
    {
      if !ValidFact(facts[i]) {
        return false;
      }
      var flags := NormalizeFlags(facts[i].flags);
      facts[i] := facts[i].(flags := flags);
    }
    return true;
  }

  method SortFacts(facts: array<Fact>)
    modifies facts
    ensures multiset(facts[..]) == multiset(old(facts[..]))
    ensures Sorted(FactOrder, facts[..])
  {
    FactPreorder();
    var sorted := SortSlice(facts[..], FactOrder);
    SameMultiset(sorted, facts[..]);
    forall i | 0 <= i < facts.Length {
      facts[i] := sorted[i];
    }
    assert facts[..] == sorted;
  }

  /**
   The coverage of one collector. On success the result is the coarsest labelled partition of the planned
   instants of the range, and the caller's facts have been normalised and sorted in place.
   */
  method Build(c: Collector, windows: seq<Window>, rangeStart: int, rangeEnd: int, now: int, facts: array<Fact>)
    returns (r: BuildResult)
    modifies facts
    ensures rangeStart >= rangeEnd ==> r == Failed(RangeNotPositive) && facts[..] == old(facts[..])
    ensures rangeStart < rangeEnd && !AllValid(old(facts[..])) ==> r == Failed(FactInvalid)
    ensures rangeStart < rangeEnd && AllValid(old(facts[..])) ==>
              && r.Built?
              && IsCoverage(c, windows, rangeStart, rangeEnd, now, Members(old(facts[..])), r.intervals)
              && Sorted(FactOrder, facts[..])
              && NormalizedSets(Members(old(facts[..])), Members(facts[..]))
  {
    if rangeStart >= rangeEnd {
      return Failed(RangeNotPositive);
    }
    var planned := PlannedIntervals(windows, rangeStart, rangeEnd);
    ghost var given := facts[..];
    var ok := NormalizeFacts(facts);
    if !ok {
      return Failed(FactInvalid);
    }
    ghost var normalized := facts[..];
    SortFacts(facts);
    SameMultiset(facts[..], normalized);
    var intervals := SweepPlans(c, planned, now, facts[..]);
    ghost var known := Members(facts[..]);
    forall i, t | 0 <= i < |intervals| && Contains(intervals[i], t)
      ensures Correct(c, windows, rangeStart, rangeEnd, now, Members(given), t, intervals[i].verdict)
    {
      assert Labels(intervals, t, intervals[i].verdict);
      var k :| 0 <= k < |planned| && InPlan(planned[k], t)
          && RuleLabel(c, planned[k].scheduleStart, now, known, t, intervals[i].verdict);
      NormalizingKeepsRule(c, planned[k].scheduleStart, now, Members(given), known, t, intervals[i].verdict);
      assert InSome(planned, t);
      assert IsScheduleStart(windows, rangeStart, rangeEnd, t, planned[k].scheduleStart);
    }
    forall t | Planned(windows, rangeStart, rangeEnd, t)
      ensures exists i :: 0 <= i < |intervals| && Contains(intervals[i], t)
    {
      assert InSome(planned, t);
      assert HasLabel(intervals, t);
    }
    return Built(intervals);
  }

  ghost predicate AllValid(facts: seq<Fact>) {
    forall i :: 0 <= i < |facts| ==> ValidFact(facts[i])
  }

  method SweepPlans(c: Collector, planned: seq<Plan>, now: int, facts: seq<Fact>) returns (result: seq<Interval>)
    requires Separated(planned)
    requires forall f :: f in facts ==> f.start < f.end
    ensures Canonical(result)
    ensures forall t, l :: Labels(result, t, l) ==>
              exists k :: 0 <= k < |planned| && InPlan(planned[k], t)
                  && RuleLabel(c, planned[k].scheduleStart, now, Members(facts), t, l)
    ensures forall t :: InSome(planned, t) ==> HasLabel(result, t)
  {
    result := [];
    for k := 0 to |planned|
      invariant Canonical(result)
      invariant k == 0 ==> result == []
      invariant k > 0 ==> result != [] && result[|result| - 1].end == planned[k - 1].end
      invariant forall t, l :: Labels(result, t, l) ==>
                  exists j :: 0 <= j < k && InPlan(planned[j], t)
                      && RuleLabel(c, planned[j].scheduleStart, now, Members(facts), t, l)
      invariant forall j, t :: 0 <= j < k && InPlan(planned[j], t) ==> HasLabel(result, t)
    {
      ghost var before := result;
      result := SweepPlan(c, planned[k], now, facts, result);
      forall t, l | Labels(result, t, l)
        ensures exists j ::
                  0 <= j < k + 1 && InPlan(planned[j], t)
                  && RuleLabel(c, planned[j].scheduleStart, now, Members(facts), t, l)
      {
        if Labels(before, t, l) {
          var j :| 0 <= j < k && InPlan(planned[j], t)
              && RuleLabel(c, planned[j].scheduleStart, now, Members(facts), t, l);
          assert j < k + 1;
        } else {
          assert InPlan(planned[k], t);
        }
      }
      forall j, t | 0 <= j < k + 1 && InPlan(planned[j], t)
        ensures HasLabel(result, t)
      {
        if j < k {
          LabelKept(before, result, t);
        }
      }
    }
  }
}
