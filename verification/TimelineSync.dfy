/**
 Collecting facts for the timeline (internal/eventstore/timeline.go): two widened SQL range queries on an inexact clock,
 an exact check after each row, and shared fact and byte budgets. Exact times are nanoseconds.
 */
module TimelineSync {
  import opened Options

  const SECOND: int := 1_000_000_000

  datatype Source = Raw | Heartbeat | Media

  /**
   A stored source row: its corrected times, what the SQL expressions for them evaluate to, whether the SQL interval
   filter holds, and the size of its projection.
   */
  datatype Fact = Fact(source: Source, id: nat, collector: string, start: int, end: Option<int>, sqlStart: real,
      sqlEnd: real, sqlInterval: bool, size: nat)

  /** A sync request: an exact range, a collector ("" for all), whether overlapping intervals count, and `julianday`
      of the widened bounds. */
  datatype Request = Request(start: int, end: int, collector: string, overlapping: bool, sqlLow: real, sqlHigh: real)

  // ----- the inexact clock -----

  /** The value is within half a second of the instant. */
  predicate Near(value: real, instant: int) {
    -0.5 * SECOND as real < value - instant as real < 0.5 * SECOND as real
  }

  /** The SQL clock is good to half a second, on the bounds and on every row. */
  predicate GoodClock(r: Request, rows: seq<Fact>) {
    && r.start < r.end && Near(r.sqlLow, r.start - SECOND) && Near(r.sqlHigh, r.end + SECOND)
    && forall i :: 0 <= i < |rows| ==> GoodRow(rows[i])
  }

  predicate GoodRow(f: Fact) {
    && Near(f.sqlStart, f.start)
    && (f.end.Some? ==> Near(f.sqlEnd, f.end.value))
    && (f.end.Some? && f.end.value > f.start ==> f.sqlInterval)
    && (f.source != Raw ==> f.sqlInterval)
  }

  // ----- the queries -----

  predicate CollectorMatches(r: Request, f: Fact) {
    r.collector == "" || f.collector == r.collector
  }

  /** The interval filter is part of the first query only for the raw events of one collector. */
  predicate FiltersIntervals(r: Request, f: Fact) {
    f.source == Raw && r.collector != "" && r.overlapping
  }

  /** The query on the start; heartbeats are compared exactly, by their stored texts. */
  predicate InStartQuery(r: Request, f: Fact) {
    && CollectorMatches(r, f) && (FiltersIntervals(r, f) ==> f.sqlInterval)
    && if f.source == Heartbeat then r.start <= f.start < r.end else r.sqlLow <= f.sqlStart < r.sqlHigh
  }

  /** The query on the end, for intervals that begin before the range. */
  predicate InOverlapQuery(r: Request, f: Fact) {
    && r.overlapping && CollectorMatches(r, f) && f.sqlInterval
    && if f.source == Heartbeat then f.start < r.start && f.end.Some? && f.end.value > r.start
       else f.sqlStart < r.sqlLow && f.sqlEnd > r.sqlLow
  }

  /** `projectionMatchesRange`, exactly. */
  predicate MatchesRange(r: Request, f: Fact) {
    f.start < r.end && (f.start >= r.start || (r.overlapping && f.end.Some? && f.end.value > r.start))
  }

  /** The checks after the query: none for heartbeats; coverage takes only positive intervals from raw events. */
  predicate Kept(r: Request, f: Fact) {
    f.source == Heartbeat ||
    (MatchesRange(r, f) && (f.source == Raw && r.overlapping ==> f.end.Some? && f.start < f.end.value))
  }

  /** What the sync is asked for, without any query. */
  predicate Wanted(r: Request, f: Fact) {
    && CollectorMatches(r, f) && MatchesRange(r, f)
    && (f.source == Raw && r.overlapping ==> f.end.Some? && f.start < f.end.value)
  }

  /** Despite the inexact clock the two queries are disjoint, and with the exact check they find just the wanted
      facts. */
  lemma QueriesAreExact(r: Request, f: Fact)
    requires r.start < r.end && Near(r.sqlLow, r.start - SECOND) && Near(r.sqlHigh, r.end + SECOND) && GoodRow(f)
    ensures !(InStartQuery(r, f) && InOverlapQuery(r, f))
    ensures (InStartQuery(r, f) || InOverlapQuery(r, f)) && Kept(r, f) <==> Wanted(r, f)
  {
  }

  /** With errors of six tenths of a second, a point fact exactly at the start of the range is never seen. */
  lemma CoarserClockLosesFact()
    ensures var r := Request(10 * SECOND, 20 * SECOND, "", false, 9.6 * SECOND as real, 21.0 * SECOND as real);
            var f := Fact(Raw, 1, "c", 10 * SECOND, None, 9.4 * SECOND as real, 0.0, false, 600);
            Wanted(r, f) && !InStartQuery(r, f) && !InOverlapQuery(r, f)
  {
  }

  // ----- collecting -----

  /** A row that one of the two queries returns and the exact check keeps. */
  predicate Picks(r: Request, f: Fact, overlap: bool) {
    (if overlap then InOverlapQuery(r, f) else InStartQuery(r, f)) && Kept(r, f)
  }

  function Found(r: Request, rows: seq<Fact>, overlap: bool): seq<Fact> {
    if rows == [] then []
    else
      var n := |rows| - 1;
      Found(r, rows[..n], overlap) + if Picks(r, rows[n], overlap) then [rows[n]] else []
  }

  function AllWanted(r: Request, rows: seq<Fact>): seq<Fact> {
    if rows == [] then []
    else
      var n := |rows| - 1;
      AllWanted(r, rows[..n]) + if Wanted(r, rows[n]) then [rows[n]] else []
  }

  /** The two queries together find every wanted fact exactly once and nothing else. */
  lemma {:induction false} CollectsEachOnce(r: Request, rows: seq<Fact>)
    requires GoodClock(r, rows)
    ensures multiset(Found(r, rows, false) + Found(r, rows, true)) == multiset(AllWanted(r, rows))
  {
    if rows != [] {
      var n := |rows| - 1;
      CollectsEachOnce(r, rows[..n]);
      assert GoodRow(rows[n]);
      QueriesAreExact(r, rows[n]);
    }
  }

  function Size(facts: seq<Fact>): nat {
    if facts == [] then 0 else Size(facts[..|facts| - 1]) + facts[|facts| - 1].size
  }

  lemma {:induction false} SizeOfConcat(a: seq<Fact>, b: seq<Fact>)
    ensures Size(a + b) == Size(a) + Size(b)
  {
    if b == [] {
      assert a + b == a;
    } else {
      assert (a + b)[..|a + b| - 1] == a + b[..|b| - 1];
      SizeOfConcat(a, b[..|b| - 1]);
    }
  }

  lemma TakeOut(s: seq<Fact>, i: nat)
    requires i < |s|
    ensures var rest := s[..i] + s[i + 1..];
            multiset(s) == multiset(rest) + multiset{s[i]} && Size(s) == Size(rest) + s[i].size
  {
    assert s == s[..i] + [s[i]] + s[i + 1..];
    SizeOfConcat(s[..i] + [s[i]], s[i + 1..]);
    SizeOfConcat(s[..i], [s[i]]);
    SizeOfConcat(s[..i], s[i + 1..]);
  }

  /** The size does not depend on the order. */
  lemma {:induction false} SizeOfMultiset(a: seq<Fact>, b: seq<Fact>)
    requires multiset(a) == multiset(b)
    ensures Size(a) == Size(b) && |a| == |b|
  {
    assert |multiset(a)| == |a| && |multiset(b)| == |b|;
    if a != [] {
      var n := |a| - 1;
      assert a[n] in multiset(b);
      var i :| 0 <= i < |b| && b[i] == a[n];
      TakeOut(a, n);
      TakeOut(b, i);
      SameWithout(multiset(a[..n] + a[n + 1..]), multiset(b[..i] + b[i + 1..]), a[n]);
      SizeOfMultiset(a[..n] + a[n + 1..], b[..i] + b[i + 1..]);
    }
  }

  lemma SameWithout(a: multiset<Fact>, b: multiset<Fact>, x: Fact)
    requires a + multiset{x} == b + multiset{x}
    ensures a == b
  {
    assert a == a + multiset{x} - multiset{x};
    assert b == b + multiset{x} - multiset{x};
  }

  datatype SyncError = FactLimit | ByteLimit

  /** The growing projection list under its budgets. */
  class Collector {
    var target: seq<Fact>
    var usedBytes: int
    const maxFacts: nat
    const maxBytes: int

    ghost predicate Valid()
      reads this
    {
      usedBytes == Size(target) && |target| <= maxFacts && usedBytes <= maxBytes
    }

    constructor (facts: nat, bytes: nat)
      ensures Valid() && target == [] && maxFacts == facts && maxBytes == bytes
    {
      target, usedBytes, maxFacts, maxBytes := [], 0, facts, bytes;
    }

    /** `appendTimelineProjection`. */
    method Append(f: Fact) returns (failure: Option<SyncError>)
      requires Valid()
      modifies this
      ensures Valid()
      ensures failure == None <==> |old(target)| < maxFacts && Size(old(target)) + f.size <= maxBytes
      ensures target == if failure == None then old(target) + [f] else old(target)
      ensures failure == Some(FactLimit) <==> |old(target)| >= maxFacts
    {
      if |target| >= maxFacts { return Some(FactLimit); }
      if f.size > maxBytes - usedBytes { return Some(ByteLimit); }
      SizeOfConcat(target, [f]);
      target, usedBytes := target + [f], usedBytes + f.size;
      failure := None;
    }

    /** One query over the rows, each row checked exactly before it is charged to the budgets. */
    method RunQuery(r: Request, rows: seq<Fact>, overlap: bool) returns (failure: Option<SyncError>)
      requires Valid()
      modifies this
      ensures Valid()
      ensures failure == None <==> Affordable(old(target) + Found(r, rows, overlap))
      ensures failure == None ==> target == old(target) + Found(r, rows, overlap)
    {
      failure := None;
      for k := 0 to |rows|
        invariant failure == None && Valid() && target == old(target) + Found(r, rows[..k], overlap)
      {
        FoundNext(r, rows, k, overlap, target, old(target));
        failure := Offer(r, rows[k], overlap);
        if failure.Some? {
          MoreIsLarger(r, rows, k + 1, overlap, old(target));
          return;
        }
      }
      assert rows[..|rows|] == rows;
    }

    /** Both budgets hold. */
    predicate Affordable(facts: seq<Fact>) {
      |facts| <= maxFacts && Size(facts) <= maxBytes
    }

    method Offer(r: Request, row: Fact, overlap: bool) returns (failure: Option<SyncError>)
      requires Valid()
      modifies this
      ensures Valid()
      ensures failure == None <==> Affordable(old(target) + One(r, row, overlap))
      ensures failure == None ==> target == old(target) + One(r, row, overlap)
    {
      failure := None;
      if Picks(r, row, overlap) {
        SizeOfConcat(target, [row]);
        failure := Append(row);
      } else {
        assert target + [] == target;
      }
    }

    /** The sources in turn, with shared budgets: every wanted fact once, or an error exactly when a budget is
        exceeded. */
    method Sync(r: Request, sources: seq<seq<Fact>>) returns (failure: Option<SyncError>)
      requires target == [] && usedBytes == 0 <= maxBytes
      requires forall s :: 0 <= s < |sources| ==> GoodClock(r, sources[s])
      modifies this
      ensures Valid()
      ensures failure == None ==> multiset(target) == multiset(WantedOf(r, sources))
      ensures failure == None <==> Affordable(WantedOf(r, sources))
    {
      failure := None;
      for s := 0 to |sources|
        invariant failure == None && Valid() && multiset(target) == multiset(WantedOf(r, sources[..s]))
      {
        assert sources[..s + 1][..s] == sources[..s];
        ghost var before := target;
        failure := CollectSource(r, sources[s]);
        SizeOfMultiset(before + AllWanted(r, sources[s]), WantedOf(r, sources[..s + 1]));
        if failure.Some? {
          MoreSources(r, sources, s + 1);
          return;
        }
      }
      assert sources[..|sources|] == sources;
      SizeOfMultiset(target, WantedOf(r, sources));
    }

    /** Both queries of one source. */
    method CollectSource(r: Request, rows: seq<Fact>) returns (failure: Option<SyncError>)
      requires Valid() && GoodClock(r, rows)
      modifies this
      ensures Valid()
      ensures failure == None ==> multiset(target) == multiset(old(target) + AllWanted(r, rows))
      ensures failure == None <==> Affordable(old(target) + AllWanted(r, rows))
    {
      var start := target;
      CollectsEachOnce(r, rows);
      var found := Found(r, rows, false) + Found(r, rows, true);
      assert start + found == start + Found(r, rows, false) + Found(r, rows, true);
      assert multiset(start + found) == multiset(start + AllWanted(r, rows));
      SizeOfMultiset(start + found, start + AllWanted(r, rows));
      SizeOfConcat(start + Found(r, rows, false), Found(r, rows, true));
      failure := RunQuery(r, rows, false);
      if failure == None {
        failure := RunQuery(r, rows, true);
      }
    }
  }

  function One(r: Request, row: Fact, overlap: bool): seq<Fact> {
    if Picks(r, row, overlap) then [row] else []
  }

  function WantedOf(r: Request, sources: seq<seq<Fact>>): seq<Fact> {
    if sources == [] then [] else WantedOf(r, sources[..|sources| - 1]) + AllWanted(r, sources[|sources| - 1])
  }

  lemma FoundNext(r: Request, rows: seq<Fact>, k: nat, overlap: bool, target: seq<Fact>, before: seq<Fact>)
    requires k < |rows| && target == before + Found(r, rows[..k], overlap)
    ensures target + One(r, rows[k], overlap) == before + Found(r, rows[..k + 1], overlap)
  {
    assert rows[..k + 1][..k] == rows[..k];
  }

  /** Further sources only make the list longer and larger. */
  lemma {:induction false} MoreSources(r: Request, sources: seq<seq<Fact>>, k: nat)
    requires k <= |sources|
    ensures |WantedOf(r, sources[..k])| <= |WantedOf(r, sources)|
            && Size(WantedOf(r, sources[..k])) <= Size(WantedOf(r, sources))
    decreases |sources| - k
  {
    if k < |sources| {
      MoreSources(r, sources, k + 1);
      assert sources[..k + 1][..k] == sources[..k];
      SizeOfConcat(WantedOf(r, sources[..k]), AllWanted(r, sources[k]));
    } else {
      assert sources[..k] == sources;
    }
  }

  /** What more rows add only makes the list longer and larger. */
  lemma {:induction false} MoreIsLarger(r: Request, rows: seq<Fact>, k: nat, overlap: bool, before: seq<Fact>)
    requires k <= |rows|
    ensures |before + Found(r, rows[..k], overlap)| <= |before + Found(r, rows, overlap)|
    ensures Size(before + Found(r, rows[..k], overlap)) <= Size(before + Found(r, rows, overlap))
    decreases |rows| - k
  {
    if k < |rows| {
      MoreIsLarger(r, rows, k + 1, overlap, before);
      FoundNext(r, rows, k, overlap, before + Found(r, rows[..k], overlap), before);
      SizeOfConcat(before + Found(r, rows[..k], overlap), One(r, rows[k], overlap));
    } else {
      assert rows[..k] == rows;
    }
  }
}
