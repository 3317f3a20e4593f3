/** Laws of coverage: uniqueness, coarseness, and how a result moves when a fact, the clock or the range changes. */
module CoverageLaws {
  import opened Ordering
  import opened CoverageRule

  ghost predicate DistinctIds(facts: set<Fact>) {
    forall f, g :: f in facts && g in facts && f.stableId == g.stableId ==> f == g
  }

  // ----- uniqueness -----

  /** With distinct stable ids the rule gives one label per instant. */
  lemma RuleUnique(c: Collector, s: int, now: int, facts: set<Fact>, t: int, l: Label, l': Label)
    requires DistinctIds(facts)
    requires RuleLabel(c, s, now, facts, t, l) && RuleLabel(c, s, now, facts, t, l')
    ensures l == l'
  {
    var covering := CoveringAt(facts, t);
    if covering == {} {
      var e :| LastEvidence(facts, t, e) && l == ClockLabel(c, if e == ZERO_TIME then s else e, now, t);
      var e' :| LastEvidence(facts, t, e') && l' == ClockLabel(c, if e' == ZERO_TIME then s else e', now, t);
    } else {
      var f :| TopRanked(covering, f) && l.availability == f.availability && l.reason == f.reason;
      var f' :| TopRanked(covering, f') && l'.availability == f'.availability && l'.reason == f'.reason;
      TextTrichotomy(f.stableId, f'.stableId);
      assert f == f';
      forall x
        ensures x in l.flags <==> x in l'.flags
      {
        assert x in Members(l.flags) <==> x in Members(l'.flags);
      }
      IncreasingUnique(l.flags, l'.flags);
    }
  }

  ghost predicate SameLabels(a: seq<Interval>, b: seq<Interval>) {
    forall t, l :: Labels(a, t, l) <==> Labels(b, t, l)
  }

  /** Positive, ordered and disjoint, but perhaps cut finer than need be. */
  ghost predicate Partition(r: seq<Interval>) {
    && (forall i :: 0 <= i < |r| ==> r[i].start < r[i].end)
    && (forall i, j :: 0 <= i < j < |r| ==> r[i].end <= r[j].start)
  }

  /** The label of a canonical interval holds neither just before it nor at its end. */
  lemma LabelStopsAtEdges(r: seq<Interval>, i: nat)
    requires Canonical(r) && i < |r|
    ensures !Labels(r, r[i].start - 1, r[i].verdict)
    ensures !Labels(r, r[i].end, r[i].verdict)
  {
    assert i > 0 ==> r[i - 1].end <= r[i].start;
    assert i + 1 < |r| ==> r[i].end <= r[i + 1].start;
  }

  /** An interval of a canonical list begins where some piece of any equally labelled partition begins. */
  lemma StartsAlign(a: seq<Interval>, b: seq<Interval>, i: nat) returns (j: nat)
    requires Canonical(a) && Partition(b) && SameLabels(a, b)
    requires i < |a|
    ensures j < |b| && b[j].start == a[i].start && b[j].verdict == a[i].verdict
  {
    var t, l := a[i].start, a[i].verdict;
    assert Contains(a[i], t) && Labels(a, t, l) && Labels(b, t, l);
    j :| 0 <= j < |b| && Contains(b[j], t) && b[j].verdict == l;
    LabelStopsAtEdges(a, i);
    assert !Labels(b, t - 1, l);
    assert !Contains(b[j], t - 1);
  }

  lemma EndsAlign(a: seq<Interval>, b: seq<Interval>, i: nat, j: nat)
    requires Canonical(a) && Canonical(b) && SameLabels(a, b)
    requires i < |a| && j < |b| && a[i].start == b[j].start && a[i].verdict == b[j].verdict
    ensures a[i].end <= b[j].end
  {
    LabelStopsAtEdges(b, j);
    assert !Labels(a, b[j].end, a[i].verdict);
    assert !Contains(a[i], b[j].end);
  }

  lemma AlignedIndex(a: seq<Interval>, b: seq<Interval>, i: nat) returns (j: nat)
    requires Canonical(a) && Canonical(b) && SameLabels(a, b)
    requires i < |a|
    ensures j < |b| && b[j] == a[i]
  {
    j := StartsAlign(a, b, i);
    EndsAlign(a, b, i, j);
    EndsAlign(b, a, j, i);
  }

  /** A canonical list is determined by the labels it gives: it is the only one. */
  lemma CanonicalUnique(a: seq<Interval>, b: seq<Interval>)
    requires Canonical(a) && Canonical(b) && SameLabels(a, b)
    ensures a == b
  {
    PrefixesAgree(a, b, |a|);
    PrefixesAgree(b, a, |b|);
    assert a[..|a|] == a && b[..|b|] == b;
  }

  lemma {:induction false} PrefixesAgree(a: seq<Interval>, b: seq<Interval>, n: nat)
    requires Canonical(a) && Canonical(b) && SameLabels(a, b)
    requires n <= |a|
    ensures n <= |b| && a[..n] == b[..n]
  {
    if n > 0 {
      PrefixesAgree(a, b, n - 1);
      forall k | 0 <= k < n - 1
        ensures a[k] == b[k]
      {
        assert a[k] == a[..n - 1][k] && b[k] == b[..n - 1][k];
      }
      var j := AlignedIndex(a, b, n - 1);
      assert j >= n - 1;
      var i := AlignedIndex(b, a, n - 1);
      assert i >= n - 1;
      assert b[n - 1].start <= b[j].start && a[n - 1].start <= a[i].start;
      assert a[n - 1] == b[n - 1];
      assert a[..n] == a[..n - 1] + [a[n - 1]] && b[..n] == b[..n - 1] + [b[n - 1]];
    }
  }

  /** No equally labelled partition has fewer pieces: the canonical one is the coarsest. */
  lemma CanonicalIsCoarsest(r: seq<Interval>, p: seq<Interval>)
    requires Canonical(r) && Partition(p) && SameLabels(r, p)
    ensures |r| <= |p|
  {
    Embed(r, p, |r|);
  }

  lemma {:induction false} Embed(r: seq<Interval>, p: seq<Interval>, n: nat)
    requires Canonical(r) && Partition(p) && SameLabels(r, p)
    requires n <= |r|
    ensures n <= |p|
    ensures n > 0 ==> exists j :: n - 1 <= j < |p| && p[j].start == r[n - 1].start
  {
    if n > 0 {
      Embed(r, p, n - 1);
      var j := StartsAlign(r, p, n - 1);
      if n > 1 {
        var k :| n - 2 <= k < |p| && p[k].start == r[n - 2].start;
        assert r[n - 2].start < r[n - 1].start;
        assert j > k;
      }
    }
  }

  /** Two coverages of one question are the same list, whatever order the facts came in. */
  lemma CoverageUnique(
      c: Collector, windows: seq<Window>, rangeStart: int, rangeEnd: int, now: int, facts: seq<Fact>,
      facts': seq<Fact>, r: seq<Interval>, r': seq<Interval>)
    requires multiset(facts) == multiset(facts')
    requires DistinctIds(Members(facts))
    requires IsCoverage(c, windows, rangeStart, rangeEnd, now, Members(facts), r)
    requires IsCoverage(c, windows, rangeStart, rangeEnd, now, Members(facts'), r')
    ensures r == r'
  {
    SameMultiset(facts, facts');
    assert Members(facts) == Members(facts');
    CoverageLabelsIncluded(c, windows, rangeStart, rangeEnd, now, Members(facts), r, r');
    CoverageLabelsIncluded(c, windows, rangeStart, rangeEnd, now, Members(facts), r', r);
    CanonicalUnique(r, r');
  }

  lemma CoverageLabelsIncluded(
      c: Collector, windows: seq<Window>, rangeStart: int, rangeEnd: int, now: int, facts: set<Fact>,
      r: seq<Interval>, r': seq<Interval>)
    requires DistinctIds(facts)
    requires IsCoverage(c, windows, rangeStart, rangeEnd, now, facts, r)
    requires IsCoverage(c, windows, rangeStart, rangeEnd, now, facts, r')
    ensures forall t, l :: Labels(r, t, l) ==> Labels(r', t, l)
  {
    forall t, l | Labels(r, t, l)
      ensures Labels(r', t, l)
    {
      var i :| 0 <= i < |r| && Contains(r[i], t) && r[i].verdict == l;
      assert Correct(c, windows, rangeStart, rangeEnd, now, facts, t, l);
      var j :| 0 <= j < |r'| && Contains(r'[j], t);
      CorrectUnique(c, windows, rangeStart, rangeEnd, now, facts, t, l, r'[j].verdict);
    }
  }

  lemma CorrectUnique(
      c: Collector, windows: seq<Window>, rangeStart: int, rangeEnd: int, now: int, facts: set<Fact>, t: int,
      l: Label, l': Label)
    requires DistinctIds(facts)
    requires Correct(c, windows, rangeStart, rangeEnd, now, facts, t, l)
    requires Correct(c, windows, rangeStart, rangeEnd, now, facts, t, l')
    ensures l == l'
  {
    var s :| IsScheduleStart(windows, rangeStart, rangeEnd, t, s) && RuleLabel(c, s, now, facts, t, l);
    var s' :| IsScheduleStart(windows, rangeStart, rangeEnd, t, s') && RuleLabel(c, s', now, facts, t, l');
    RuleUnique(c, s, now, facts, t, l, l');
  }

  // ----- one late fact -----

  lemma CoveringWithLateFact(facts: set<Fact>, late: Fact, t: int)
    requires !(late.start <= t < late.end)
    ensures CoveringAt(facts + {late}, t) == CoveringAt(facts, t)
  {
  }

  /** Nothing before the late fact moves. */
  lemma LateFactKeepsEarlier(c: Collector, s: int, now: int, facts: set<Fact>, late: Fact, t: int, l: Label)
    requires late.start < late.end && t < late.start
    ensures RuleLabel(c, s, now, facts, t, l) <==> RuleLabel(c, s, now, facts + {late}, t, l)
  {
    CoveringWithLateFact(facts, late, t);
    forall e
      ensures LastEvidence(facts, t, e) <==> LastEvidence(facts + {late}, t, e)
    {
    }
  }

  /** Inside the late fact the instant becomes covered or confirmed idle. */
  lemma LateFactCoversItsSpan(c: Collector, s: int, now: int, facts: set<Fact>, late: Fact, t: int, l: Label)
    requires forall f :: f in facts + {late} ==> ValidFact(f)
    requires late.start <= t < late.end
    requires RuleLabel(c, s, now, facts + {late}, t, l)
    ensures l.availability == Covered || l.availability == ConfirmedIdle
  {
    assert late in CoveringAt(facts + {late}, t);
    var f :| TopRanked(CoveringAt(facts + {late}, t), f) && l.availability == f.availability && l.reason == f.reason;
    assert ValidFact(f);
  }

  /** How far along Pending, Unknown, Delayed, Offline an uncovered instant is. */
  function Lateness(a: Availability): int {
    match a
    case Pending => 0
    case Unknown => 1
    case Delayed => 2
    case Offline => 3
    case Covered => -1
    case ConfirmedIdle => -1
  }

  /** Evidence at or before `t` that the clock counts from. */
  ghost predicate HasEvidence(facts: set<Fact>, t: int) {
    exists f :: f in facts && ZERO_TIME < f.end <= t
  }

  /** The late fact never moves the reference of a later instant back. */
  ghost predicate KeepsReference(s: int, facts: set<Fact>, late: Fact, t: int) {
    late.end >= s || late.end <= ZERO_TIME || HasEvidence(facts, t)
  }

  /** At no clock does the late fact move `t` further along for this collector. */
  ghost predicate NeverWorsensFor(c: Collector, s: int, facts: set<Fact>, late: Fact, t: int) {
    forall now: int, l: Label, l': Label ::
      RuleLabel(c, s, now, facts, t, l) && RuleLabel(c, s, now, facts + {late}, t, l')
      ==> Lateness(l'.availability) <= Lateness(l.availability)
  }

  ghost predicate NeverWorsens(s: int, facts: set<Fact>, late: Fact, t: int) {
    forall c: Collector :: NeverWorsensFor(c, s, facts, late, t)
  }

  /**
   Counted from either reference, `t` has outlived the wait for the first heartbeat, and lies on the same side of the
   heartbeat's deadline and of the offline deadline.
   */
  predicate ClockAgrees(c: Collector, earlier: int, later: int, t: int) {
    && later + c.heartbeat + c.lateness <= t + 1
    && !(earlier + c.heartbeat <= t < later + c.heartbeat)
    && !(earlier + c.offline <= t < later + c.offline)
  }

  /** An earlier reference never makes `t` look worse exactly where it makes no difference at all. */
  lemma {:induction false} ClockAgreesIff(c: Collector, earlier: int, later: int, t: int)
    requires Sensible(c) && earlier < later
    ensures ClockAgrees(c, earlier, later, t) <==>
              forall now :: ClockLabel(c, earlier, now, t) == ClockLabel(c, later, now, t)
    ensures ClockAgrees(c, earlier, later, t) <==>
              forall now :: Lateness(ClockLabel(c, earlier, now, t).availability)
                              <= Lateness(ClockLabel(c, later, now, t).availability)
  {
    if !ClockAgrees(c, earlier, later, t) {
      var deadline := later + c.heartbeat + c.lateness;
      var now := if t + 1 < deadline then deadline - 1 else t + 1;
      assert Lateness(ClockLabel(c, earlier, now, t).availability) > Lateness(ClockLabel(c, later, now,
          t).availability);
    }
  }

  /** What the late fact changes where the schedule start was the reference: the reference. */
  lemma {:induction false} LateFactMovesReference(
      c: Collector, s: int, now: int, facts: set<Fact>, late: Fact, t: int, l: Label)
    requires late.start < late.end <= t && s <= t && CoveringAt(facts, t) == {} && !KeepsReference(s, facts, late, t)
    ensures RuleLabel(c, s, now, facts, t, l) <==> l == ClockLabel(c, s, now, t)
    ensures RuleLabel(c, s, now, facts + {late}, t, l) <==> l == ClockLabel(c, late.end, now, t)
  {
    CoveringWithLateFact(facts, late, t);
    forall e
      ensures LastEvidence(facts, t, e) <==> e == ZERO_TIME
      ensures LastEvidence(facts + {late}, t, e) <==> e == late.end
    {
      LateFactIsEvidence(s, facts, late, t, e);
    }
    assert LastEvidence(facts, t, ZERO_TIME) && LastEvidence(facts + {late}, t, late.end);
  }

  lemma {:induction false} LateFactIsEvidence(s: int, facts: set<Fact>, late: Fact, t: int, e: int)
    requires late.end <= t && !KeepsReference(s, facts, late, t)
    ensures LastEvidence(facts, t, e) <==> e == ZERO_TIME
    ensures LastEvidence(facts + {late}, t, e) <==> e == late.end
  {
    assert forall f :: f in facts && f.end <= t ==> f.end <= ZERO_TIME;
    assert late in facts + {late};
  }

  /**
   For one collector: a later uncovered instant is moved no further along, at any clock, exactly when the reference
   stays or its move makes no difference there.
   */
  lemma {:induction false} LateFactNeverWorsensForIff(c: Collector, s: int, facts: set<Fact>, late: Fact, t: int)
    requires Sensible(c) && late.start < late.end <= t && s <= t
    requires CoveringAt(facts, t) == {}
    ensures NeverWorsensFor(c, s, facts, late, t) <==>
              KeepsReference(s, facts, late, t) || ClockAgrees(c, late.end, s, t)
  {
    if KeepsReference(s, facts, late, t) {
      CoveringWithLateFact(facts, late, t);
      forall now, l, l' | RuleLabel(c, s, now, facts, t, l) && RuleLabel(c, s, now, facts + {late}, t, l')
        ensures Lateness(l'.availability) <= Lateness(l.availability)
      {
        LateFactNoWorse(c, s, now, facts, late, t, l, l');
      }
    } else {
      ClockAgreesIff(c, late.end, s, t);
      forall now, l
        ensures RuleLabel(c, s, now, facts, t, l) <==> l == ClockLabel(c, s, now, t)
        ensures RuleLabel(c, s, now, facts + {late}, t, l) <==> l == ClockLabel(c, late.end, now, t)
      {
        LateFactMovesReference(c, s, now, facts, late, t, l);
      }
      MovedReferenceWorsens(c, s, facts, late, t);
    }
  }

  lemma {:induction false} MovedReferenceWorsens(c: Collector, s: int, facts: set<Fact>, late: Fact, t: int)
    requires forall now, l :: RuleLabel(c, s, now, facts, t, l) <==> l == ClockLabel(c, s, now, t)
    requires forall now, l :: RuleLabel(c, s, now, facts + {late}, t, l) <==> l == ClockLabel(c, late.end, now, t)
    ensures NeverWorsensFor(c, s, facts, late, t) <==>
              forall now :: Lateness(ClockLabel(c, late.end, now, t).availability)
                              <= Lateness(ClockLabel(c, s, now, t).availability)
  {
    if NeverWorsensFor(c, s, facts, late, t) {
      forall now
        ensures Lateness(ClockLabel(c, late.end, now, t).availability)
             <= Lateness(ClockLabel(c, s, now, t).availability)
      {
        var l, l' := ClockLabel(c, s, now, t), ClockLabel(c, late.end, now, t);
        assert RuleLabel(c, s, now, facts, t, l) && RuleLabel(c, s, now, facts + {late}, t, l');
      }
    }
  }

  /** Some collector that the configuration accepts tells the references apart, until a day after the later one. */
  lemma {:induction false} AcceptedAgreeIff(earlier: int, later: int, t: int)
    requires earlier < later <= t
    ensures (forall c :: Configured(c) ==> ClockAgrees(c, earlier, later, t)) <==> later + 24 * HOUR <= t
  {
    if t < later + 24 * HOUR {
      var c := if t + 1 < later + 4200 * SECOND then Collector(600 * SECOND, HOUR, 24 * HOUR)
               else Collector(SECOND, 0, t - later + 1);
      assert Configured(c) && !ClockAgrees(c, earlier, later, t);
    }
  }

  /** For all collectors that the configuration accepts: the same, until a day after the schedule start. */
  lemma {:induction false} AcceptedNeverWorsenIff(s: int, facts: set<Fact>, late: Fact, t: int)
    requires late.start < late.end <= t && s <= t
    requires CoveringAt(facts, t) == {}
    ensures (forall c :: Configured(c) ==> NeverWorsensFor(c, s, facts, late, t)) <==>
              KeepsReference(s, facts, late, t) || s + 24 * HOUR <= t
  {
    forall c | Configured(c)
      ensures NeverWorsensFor(c, s, facts, late, t) <==>
                KeepsReference(s, facts, late, t) || ClockAgrees(c, late.end, s, t)
    {
      LateFactNeverWorsensForIff(c, s, facts, late, t);
    }
    if !KeepsReference(s, facts, late, t) {
      AcceptedAgreeIff(late.end, s, t);
    }
  }

  /**
   A later uncovered instant of the window is moved no further along by a late fact, for every collector and
   every clock, exactly when the fact ends no earlier than the schedule start or earlier evidence already counts.
   */
  lemma LateFactNeverWorsensIff(s: int, facts: set<Fact>, late: Fact, t: int)
    requires late.start < late.end <= t && s <= t
    requires CoveringAt(facts, t) == {}
    ensures NeverWorsens(s, facts, late, t) <==> KeepsReference(s, facts, late, t)
  {
    CoveringWithLateFact(facts, late, t);
    if KeepsReference(s, facts, late, t) {
      forall c: Collector
        ensures NeverWorsensFor(c, s, facts, late, t)
      {
        forall now, l, l' | RuleLabel(c, s, now, facts, t, l) && RuleLabel(c, s, now, facts + {late}, t, l')
          ensures Lateness(l'.availability) <= Lateness(l.availability)
        {
          LateFactNoWorse(c, s, now, facts, late, t, l, l');
        }
      }
    } else {
      LateFactWorsens(s, facts, late, t);
    }
  }

  lemma LateFactNoWorse(c: Collector, s: int, now: int, facts: set<Fact>, late: Fact, t: int, l: Label, l': Label)
    requires late.start < late.end <= t
    requires CoveringAt(facts, t) == {}
    requires KeepsReference(s, facts, late, t)
    requires RuleLabel(c, s, now, facts, t, l) && RuleLabel(c, s, now, facts + {late}, t, l')
    ensures Lateness(l'.availability) <= Lateness(l.availability)
  {
  }

  /** A fact that ends before the schedule start, where nothing was known before, can turn Unknown into Delayed. */
  lemma LateFactWorsens(s: int, facts: set<Fact>, late: Fact, t: int)
    requires late.start < late.end <= t && s <= t
    requires CoveringAt(facts, t) == {}
    requires !KeepsReference(s, facts, late, t)
    ensures !NeverWorsens(s, facts, late, t)
  {
    var c := Collector(t - late.end, 0, t - late.end + 1);
    LateFactNeverWorsensForIff(c, s, facts, late, t);
  }

  /** The same three statements, read off two results of the sweep. */
  lemma LateFactOnResults(
      c: Collector, windows: seq<Window>, rangeStart: int, rangeEnd: int, now: int, facts: set<Fact>, late: Fact,
      r: seq<Interval>, r': seq<Interval>, t: int, s: int, l: Label, l': Label)
    requires DistinctIds(facts + {late})
    requires forall f :: f in facts + {late} ==> ValidFact(f)
    requires IsCoverage(c, windows, rangeStart, rangeEnd, now, facts, r)
    requires IsCoverage(c, windows, rangeStart, rangeEnd, now, facts + {late}, r')
    requires Labels(r, t, l) && Labels(r', t, l')
    requires IsScheduleStart(windows, rangeStart, rangeEnd, t, s)
    ensures t < late.start ==> l' == l
    ensures late.start <= t < late.end ==> l'.availability == Covered || l'.availability == ConfirmedIdle
    ensures late.end <= t && CoveringAt(facts, t) != {} ==> l' == l
    ensures late.end <= t && CoveringAt(facts, t) == {}
            && (KeepsReference(s, facts, late, t) || (Sensible(c) && ClockAgrees(c, late.end, s, t))) ==>
              Lateness(l'.availability) <= Lateness(l.availability)
  {
    LabelFollowsRule(c, windows, rangeStart, rangeEnd, now, facts, r, t, s, l);
    LabelFollowsRule(c, windows, rangeStart, rangeEnd, now, facts + {late}, r', t, s, l');
    assert late in facts + {late} && ValidFact(late);
    if t < late.start {
      LateFactKeepsEarlier(c, s, now, facts, late, t, l);
      RuleUnique(c, s, now, facts + {late}, t, l, l');
    } else if t < late.end {
      LateFactCoversItsSpan(c, s, now, facts, late, t, l');
    } else {
      CoveringWithLateFact(facts, late, t);
      if CoveringAt(facts, t) != {} {
        assert RuleLabel(c, s, now, facts + {late}, t, l);
        RuleUnique(c, s, now, facts + {late}, t, l, l');
      } else if KeepsReference(s, facts, late, t) {
        LateFactNoWorse(c, s, now, facts, late, t, l, l');
      } else if Sensible(c) && ClockAgrees(c, late.end, s, t) {
        StartsBefore(windows, rangeStart, rangeEnd, t, s);
        LateFactNeverWorsensForIff(c, s, facts, late, t);
      }
    }
  }

  lemma LabelFollowsRule(
      c: Collector, windows: seq<Window>, rangeStart: int, rangeEnd: int, now: int, facts: set<Fact>,
      r: seq<Interval>, t: int, s: int, l: Label)
    requires IsCoverage(c, windows, rangeStart, rangeEnd, now, facts, r)
    requires Labels(r, t, l)
    requires IsScheduleStart(windows, rangeStart, rangeEnd, t, s)
    ensures RuleLabel(c, s, now, facts, t, l)
  {
  }

  // ----- the clock -----

  /** An instant that is not Pending has settled: a later clock gives it the same label. */
  lemma SettledStays(c: Collector, s: int, now: int, now': int, facts: set<Fact>, t: int, l: Label)
    requires now <= now'
    requires RuleLabel(c, s, now, facts, t, l)
    requires l.availability != Pending
    ensures RuleLabel(c, s, now', facts, t, l)
  {
  }

  /** The same, read off two results of the sweep. */
  lemma SettledOnResults(
      c: Collector, windows: seq<Window>, rangeStart: int, rangeEnd: int, now: int, now': int, facts: set<Fact>,
      r: seq<Interval>, r': seq<Interval>, t: int, l: Label)
    requires DistinctIds(facts) && now <= now'
    requires IsCoverage(c, windows, rangeStart, rangeEnd, now, facts, r)
    requires IsCoverage(c, windows, rangeStart, rangeEnd, now', facts, r')
    requires Labels(r, t, l) && l.availability != Pending
    ensures Labels(r', t, l)
  {
    var i :| 0 <= i < |r| && Contains(r[i], t) && r[i].verdict == l;
    assert Correct(c, windows, rangeStart, rangeEnd, now, facts, t, l);
    var s :| IsScheduleStart(windows, rangeStart, rangeEnd, t, s) && RuleLabel(c, s, now, facts, t, l);
    var j :| 0 <= j < |r'| && Contains(r'[j], t);
    LabelFollowsRule(c, windows, rangeStart, rangeEnd, now', facts, r', t, s, r'[j].verdict);
    SettledStays(c, s, now, now', facts, t, l);
    RuleUnique(c, s, now', facts, t, l, r'[j].verdict);
  }

  // ----- the range -----

  /** In a narrower range a window reaches `t` exactly when it did in the wider one and is not cut away whole. */
  lemma ReachesInNarrowerRange(windows: seq<Window>, a: int, b: int, a': int, b': int, w: Window, t: int)
    requires a <= a' <= t < b' <= b
    ensures Reaches(windows, a', b', w, t) <==> Reaches(windows, a, b, w, t) && a' < w.end && w.start < b'
  {
    if Reaches(windows, a', b', w, t) {
      forall u | Min(Max(w.start, a), t) <= u <= Max(Max(w.start, a), t)
        ensures Planned(windows, a, b, u)
      {
        if Min(Max(w.start, a'), t) <= u <= Max(Max(w.start, a'), t) {
          assert Planned(windows, a', b', u);
        } else {
          assert InWindow(w, u);
        }
      }
    }
    if Reaches(windows, a, b, w, t) && a' < w.end && w.start < b' {
      assert Planned(windows, a, b, t);
      forall u | Min(Max(w.start, a'), t) <= u <= Max(Max(w.start, a'), t)
        ensures Planned(windows, a', b', u)
      {
        assert Planned(windows, a, b, u);
      }
    }
  }

  /**
   A query that starts later gives `t` the same schedule start exactly when the earliest window joined to `t`
   has not already ended when the query starts. A touching window that ended before is dropped with its start.
   */
  lemma NarrowerRangeKeepsScheduleIff(windows: seq<Window>, a: int, b: int, a': int, b': int, t: int, s: int, s': int)
    requires a <= a' <= t < b' <= b
    requires IsScheduleStart(windows, a, b, t, s) && IsScheduleStart(windows, a', b', t, s')
    ensures s == s' <==> exists w :: Reaches(windows, a, b, w, t) && w.start == s && a' < w.end
  {
    var w' :| Reaches(windows, a', b', w', t) && w'.start == s';
    ReachesInNarrowerRange(windows, a, b, a', b', w', t);
    assert s <= s';
    if w :| Reaches(windows, a, b, w, t) && w.start == s && a' < w.end {
      assert Reaches(windows, a, b, w, t) && w.start < b' by {
        assert s <= s' && s' < b';
      }
      ReachesInNarrowerRange(windows, a, b, a', b', w, t);
    }
  }

  /** Both schedule starts give `t` the same labels for this collector, whatever the clock. */
  ghost predicate SameLabelsFor(c: Collector, s: int, s': int, facts: set<Fact>, t: int) {
    forall now: int, l: Label :: RuleLabel(c, s, now, facts, t, l) <==> RuleLabel(c, s', now, facts, t, l)
  }

  ghost predicate SameLabelsFrom(s: int, s': int, facts: set<Fact>, t: int) {
    forall c: Collector :: SameLabelsFor(c, s, s', facts, t)
  }

  /** Where nothing covers `t` and nothing is known, the label is the clock's from the schedule start. */
  lemma {:induction false} StartIsReference(c: Collector, s: int, now: int, facts: set<Fact>, t: int, l: Label)
    requires CoveringAt(facts, t) == {} && !HasEvidence(facts, t)
    ensures RuleLabel(c, s, now, facts, t, l) <==> l == ClockLabel(c, s, now, t)
  {
    assert forall f :: f in facts && f.end <= t ==> f.end <= ZERO_TIME;
    assert LastEvidence(facts, t, ZERO_TIME);
  }

  /** For one collector: exactly where the schedule start is not the reference, or its move makes no difference. */
  lemma {:induction false} SameLabelsForIff(c: Collector, s: int, s': int, facts: set<Fact>, t: int)
    requires Sensible(c) && s < s'
    ensures SameLabelsFor(c, s, s', facts, t) <==>
              CoveringAt(facts, t) != {} || HasEvidence(facts, t) || ClockAgrees(c, s, s', t)
  {
    if CoveringAt(facts, t) == {} && !HasEvidence(facts, t) {
      ClockAgreesIff(c, s, s', t);
      forall now, l
        ensures RuleLabel(c, s, now, facts, t, l) <==> l == ClockLabel(c, s, now, t)
        ensures RuleLabel(c, s', now, facts, t, l) <==> l == ClockLabel(c, s', now, t)
      {
        StartIsReference(c, s, now, facts, t, l);
        StartIsReference(c, s', now, facts, t, l);
      }
      if SameLabelsFor(c, s, s', facts, t) {
        forall now
          ensures ClockLabel(c, s, now, t) == ClockLabel(c, s', now, t)
        {
          assert RuleLabel(c, s, now, facts, t, ClockLabel(c, s, now, t));
        }
      }
    } else if CoveringAt(facts, t) == {} {
      EvidenceIsReference(c, s, s', facts, t);
    }
  }

  lemma {:induction false} EvidenceIsReference(c: Collector, s: int, s': int, facts: set<Fact>, t: int)
    requires CoveringAt(facts, t) == {} && HasEvidence(facts, t)
    ensures SameLabelsFor(c, s, s', facts, t)
  {
    forall e | LastEvidence(facts, t, e)
      ensures e != ZERO_TIME
    {
    }
  }

  /** For all collectors that the configuration accepts: the same, until a day after the later start. */
  lemma {:induction false} AcceptedSameLabelsIff(s: int, s': int, facts: set<Fact>, t: int)
    requires s < s' <= t
    ensures (forall c :: Configured(c) ==> SameLabelsFor(c, s, s', facts, t)) <==>
              CoveringAt(facts, t) != {} || HasEvidence(facts, t) || s' + 24 * HOUR <= t
  {
    forall c | Configured(c)
      ensures SameLabelsFor(c, s, s', facts, t) <==>
                CoveringAt(facts, t) != {} || HasEvidence(facts, t) || ClockAgrees(c, s, s', t)
    {
      SameLabelsForIff(c, s, s', facts, t);
    }
    AcceptedAgreeIff(s, s', t);
  }

  /** The schedule start matters just where no fact covers `t` and none has ended before. */
  lemma SameLabelsIff(s: int, s': int, facts: set<Fact>, t: int)
    requires s <= t && s' <= t
    ensures SameLabelsFrom(s, s', facts, t) <==> s == s' || CoveringAt(facts, t) != {} || HasEvidence(facts, t)
  {
    if CoveringAt(facts, t) == {} && !HasEvidence(facts, t) && s != s' {
      LaterStartDiffers(if s < s' then s else s', if s < s' then s' else s, facts, t);
    } else if CoveringAt(facts, t) == {} && HasEvidence(facts, t) {
      forall c
        ensures SameLabelsFor(c, s, s', facts, t)
      {
        EvidenceIsReference(c, s, s', facts, t);
      }
    }
  }

  /** With a heartbeat period that has just run out since the earlier start, the label is Delayed from there, else
      Unknown. */
  lemma LaterStartDiffers(s: int, s': int, facts: set<Fact>, t: int)
    requires s < s' <= t && CoveringAt(facts, t) == {} && !HasEvidence(facts, t)
    ensures !SameLabelsFrom(s, s', facts, t) && !SameLabelsFrom(s', s, facts, t)
  {
    var c := Collector(t - s, 0, t - s + 1);
    SameLabelsForIff(c, s, s', facts, t);
    assert !SameLabelsFor(c, s', s, facts, t);
  }

  /** A schedule start is no later than the instants it is for. */
  lemma StartsBefore(windows: seq<Window>, a: int, b: int, t: int, s: int)
    requires IsScheduleStart(windows, a, b, t, s)
    ensures s <= t
  {
    var w :| Reaches(windows, a, b, w, t) && w.start == s;
    assert Planned(windows, a, b, t);
    var u :| u in windows && InWindow(u, t);
    assert Reaches(windows, a, b, u, t);
  }

  /**
   A narrower query gives `t` the same label for every collector and clock exactly when it is covered or has evidence,
   or the earliest window joined to it has not already ended when the query starts.
   */
  lemma NarrowerRangeKeepsLabelsIff(
      windows: seq<Window>, a: int, b: int, a': int, b': int, facts: set<Fact>, t: int, s: int, s': int)
    requires a <= a' <= t < b' <= b
    requires IsScheduleStart(windows, a, b, t, s) && IsScheduleStart(windows, a', b', t, s')
    ensures SameLabelsFrom(s, s', facts, t) <==>
            CoveringAt(facts, t) != {} || HasEvidence(facts, t)
            || exists w :: Reaches(windows, a, b, w, t) && w.start == s && a' < w.end
  {
    NarrowerRangeKeepsScheduleIff(windows, a, b, a', b', t, s, s');
    StartsBefore(windows, a, b, t, s);
    StartsBefore(windows, a', b', t, s');
    SameLabelsIff(s, s', facts, t);
  }

  /** The same for one collector, where the move of the schedule start may make no difference. */
  lemma {:induction false} NarrowerRangeKeepsLabelsForIff(
      c: Collector, windows: seq<Window>, a: int, b: int, a': int, b': int, facts: set<Fact>, t: int, s: int, s': int)
    requires Sensible(c) && a <= a' <= t < b' <= b
    requires IsScheduleStart(windows, a, b, t, s) && IsScheduleStart(windows, a', b', t, s')
    ensures SameLabelsFor(c, s, s', facts, t) <==>
            CoveringAt(facts, t) != {} || HasEvidence(facts, t) || ClockAgrees(c, s, s', t)
            || exists w :: Reaches(windows, a, b, w, t) && w.start == s && a' < w.end
  {
    NarrowerRangeKeepsScheduleIff(windows, a, b, a', b', t, s, s');
    if s != s' {
      var w' :| Reaches(windows, a', b', w', t) && w'.start == s';
      ReachesInNarrowerRange(windows, a, b, a', b', w', t);
      SameLabelsForIff(c, s, s', facts, t);
    }
  }

  /** Read off two results of the sweep: where the schedule start is kept, or does not matter, the label is. */
  lemma NarrowerRangeOnResults(
      c: Collector, windows: seq<Window>, a: int, b: int, a': int, b': int, now: int, facts: set<Fact>,
      r: seq<Interval>, r': seq<Interval>, t: int, s: int, s': int, l: Label)
    requires DistinctIds(facts) && a <= a' <= t < b' <= b
    requires IsCoverage(c, windows, a, b, now, facts, r) && IsCoverage(c, windows, a', b', now, facts, r')
    requires IsScheduleStart(windows, a, b, t, s) && IsScheduleStart(windows, a', b', t, s')
    requires Labels(r, t, l) && SameLabelsFor(c, s, s', facts, t)
    ensures Labels(r', t, l)
  {
    LabelFollowsRule(c, windows, a, b, now, facts, r, t, s, l);
    var i :| 0 <= i < |r| && Contains(r[i], t) && r[i].verdict == l;
    assert Correct(c, windows, a, b, now, facts, t, l);
    assert Planned(windows, a', b', t);
    var j :| 0 <= j < |r'| && Contains(r'[j], t);
    LabelFollowsRule(c, windows, a', b', now, facts, r', t, s', r'[j].verdict);
    RuleUnique(c, s', now, facts, t, l, r'[j].verdict);
  }

  const TOUCHING := [Window(0, 100 * SECOND), Window(100 * SECOND, 200 * SECOND)]

  /** Two windows touch after a hundred seconds: asking from there on forgets that the schedule began at `0`. */
  lemma TouchingWindowsStarts()
    ensures IsScheduleStart(TOUCHING, 0, 200 * SECOND, 105 * SECOND, 0)
    ensures IsScheduleStart(TOUCHING, 100 * SECOND, 200 * SECOND, 105 * SECOND, 100 * SECOND)
  {
    assert TOUCHING[0] in TOUCHING && TOUCHING[1] in TOUCHING;
    forall u | 0 <= u < 200 * SECOND
      ensures Planned(TOUCHING, 0, 200 * SECOND, u)
      ensures u >= 100 * SECOND ==> Planned(TOUCHING, 100 * SECOND, 200 * SECOND, u)
    {
      assert InWindow(TOUCHING[if u < 100 * SECOND then 0 else 1], u);
    }
    assert Reaches(TOUCHING, 0, 200 * SECOND, TOUCHING[0], 105 * SECOND);
    assert Reaches(TOUCHING, 100 * SECOND, 200 * SECOND, TOUCHING[1], 105 * SECOND);
  }

  /** With a heartbeat every ten seconds and offline after twenty, the 105th second is offline in the whole range and
      unknown in the second half. */
  lemma TouchingWindowsExample()
    ensures var c := Collector(10 * SECOND, 0, 20 * SECOND);
            var now, t := 1000 * SECOND, 105 * SECOND;
            && Configured(c)
            && Correct(c, TOUCHING, 0, 200 * SECOND, now, {}, t, Label(Offline, [], "HEARTBEAT_OFFLINE"))
            && Correct(c, TOUCHING, 100 * SECOND, 200 * SECOND, now, {}, t, Label(Unknown, [], "HEARTBEAT_MISSING"))
  {
    TouchingWindowsStarts();
    var c := Collector(10 * SECOND, 0, 20 * SECOND);
    var now, t := 1000 * SECOND, 105 * SECOND;
    assert LastEvidence({}, t, ZERO_TIME);
    assert RuleLabel(c, 0, now, {}, t, Label(Offline, [], "HEARTBEAT_OFFLINE"));
    assert RuleLabel(c, 100 * SECOND, now, {}, t, Label(Unknown, [], "HEARTBEAT_MISSING"));
    assert TOUCHING[1] in TOUCHING && InWindow(TOUCHING[1], t);
  }
}
