/**
 Keyset pages over append-only tables (internal/eventstore/query.go, timeline.go). A page is a bounded prefix of the
 remaining keys in order; following cursors walks the snapshot whatever is appended meanwhile.
 */
module Paging {
  import opened Ordering

  // ----- pages over any strict order -----

  ghost predicate StrictOrder<K(!new)>(less: (K, K) -> bool) {
    && (forall a, b :: !(less(a, b) && less(b, a)))
    && (forall a, b :: less(a, b) || a == b || less(b, a))
    && (forall a, b, c :: less(a, b) && less(b, c) ==> less(a, c))
  }

  ghost predicate Ascending<K(!new)>(less: (K, K) -> bool, s: seq<K>) {
    forall i, j :: 0 <= i < j < |s| ==> less(s[i], s[j])
  }

  /** `page` is the first `limit` of the remaining keys, or all of them. */
  ghost predicate IsPage<K(!new)>(less: (K, K) -> bool, page: seq<K>, remaining: set<K>, limit: nat) {
    && Ascending(less, page) && Members(page) <= remaining
    && |page| == (if |remaining| < limit then |remaining| else limit)
    && forall k, i :: k in remaining && k !in page && 0 <= i < |page| ==> less(page[i], k)
  }

  lemma AscendingIsDistinct<K(!new)>(less: (K, K) -> bool, s: seq<K>)
    requires StrictOrder(less) && Ascending(less, s)
    ensures |Members(s)| == |s|
  {
    forall i, j | 0 <= i < j < |s| ensures s[i] != s[j] {
      assert less(s[i], s[j]);
    }
    MembersSize(s);
  }

  lemma PrefixIsPage<K(!new)>(less: (K, K) -> bool, s: seq<K>, n: nat, limit: nat)
    requires StrictOrder(less) && Ascending(less, s) && n == if |s| < limit then |s| else limit
    ensures IsPage(less, s[..n], Members(s), limit)
  {
    AscendingIsDistinct(less, s);
    forall k, i | k in s && k !in s[..n] && 0 <= i < n
      ensures less(s[i], k)
    {
      var j :| 0 <= j < |s| && s[j] == k;
    }
  }

  /** ORDER BY the key with LIMIT one beyond the page: the page, and whether a row was left over. */
  method OrderedPage<K(!new)>(selected: seq<K>, less: (K, K) -> bool, limit: nat) returns (page: seq<K>, more: bool)
    requires StrictOrder(less) && forall i, j :: 0 <= i < j < |selected| ==> selected[i] != selected[j]
    ensures IsPage(less, page, Members(selected), limit)
    ensures more <==> |selected| > limit
  {
    var sorted := SortSlice(selected, (a, b) => !less(b, a));
    SortedAscends(selected, sorted, less);
    var rows := if |sorted| > limit + 1 then sorted[..limit + 1] else sorted;
    more := |rows| > limit;
    page := if more then rows[..limit] else rows;
    assert page == sorted[..if |sorted| < limit then |sorted| else limit];
    PrefixIsPage(less, sorted, |page|, limit);
  }

  lemma SortedAscends<K(!new)>(selected: seq<K>, sorted: seq<K>, less: (K, K) -> bool)
    requires StrictOrder(less) && forall i, j :: 0 <= i < j < |selected| ==> selected[i] != selected[j]
    requires multiset(sorted) == multiset(selected) && Sorted((a, b) => !less(b, a), sorted)
    ensures Ascending(less, sorted) && Members(sorted) == Members(selected) && |sorted| == |selected|
  {
    SameMultiset(sorted, selected);
    forall i, j | 0 <= i < j < |sorted|
      ensures less(sorted[i], sorted[j])
    {
      if sorted[i] == sorted[j] {
        RepeatCountsTwice(sorted, i, j);
        DistinctCountsOnce(selected, sorted[i]);
        assert false;
      }
    }
  }

  /** The state of a walk: what was collected comes, in order, before all that remains. */
  ghost predicate Walked<K(!new)>(less: (K, K) -> bool, collected: seq<K>, remaining: set<K>, all: set<K>) {
    && Ascending(less, collected) && Members(collected) + remaining == all
    && forall i, k :: 0 <= i < |collected| && k in remaining ==> less(collected[i], k)
  }

  ghost function Beyond<K(!new)>(less: (K, K) -> bool, keys: set<K>, last: K): set<K> {
    set k | k in keys && less(last, k)
  }

  lemma AppendAscends<K(!new)>(less: (K, K) -> bool, a: seq<K>, b: seq<K>)
    requires Ascending(less, a) && Ascending(less, b)
    requires forall i, k :: 0 <= i < |a| && k in b ==> less(a[i], k)
    ensures Ascending(less, a + b) && Members(a + b) == Members(a) + Members(b)
  {
    forall i, j | 0 <= i < j < |a + b|
      ensures less((a + b)[i], (a + b)[j])
    {
      if i < |a| <= j {
        assert b[j - |a|] in b;
      }
    }
  }

  lemma UpToLast<K(!new)>(less: (K, K) -> bool, page: seq<K>, k: K)
    requires StrictOrder(less) && Ascending(less, page) && page != [] && k in page
    ensures k == page[|page| - 1] || less(k, page[|page| - 1])
    ensures !less(page[|page| - 1], k)
  {
  }

  /** The remaining keys beyond the page's last are those not on the page. */
  lemma BeyondIsRest<K(!new)>(less: (K, K) -> bool, remaining: set<K>, page: seq<K>, limit: nat)
    requires StrictOrder(less) && IsPage(less, page, remaining, limit) && page != []
    ensures Beyond(less, remaining, page[|page| - 1]) == remaining - Members(page)
    ensures |remaining - Members(page)| == |remaining| - |page|
  {
    AscendingIsDistinct(less, page);
    assert remaining == Members(page) + (remaining - Members(page));
    forall k | k in remaining
      ensures less(page[|page| - 1], k) <==> k !in page
    {
      if k in page { UpToLast(less, page, k); }
    }
  }

  /** One more page: the keys beyond its last are exactly those that remain, and they are fewer. */
  lemma PageAdvances<K(!new)>(
      less: (K, K) -> bool, collected: seq<K>, remaining: set<K>, all: set<K>, page: seq<K>, limit: nat)
    requires StrictOrder(less) && Walked(less, collected, remaining, all) && IsPage(less, page, remaining, limit)
    ensures Ascending(less, collected + page)
    ensures |remaining| <= limit ==> Members(collected + page) == all
    ensures page != [] ==>
              var rest := Beyond(less, all, page[|page| - 1]);
              Walked(less, collected + page, rest, all) && |rest| == |remaining| - |page|
  {
    PageFollows(less, collected, remaining, all, page, limit);
    AscendingIsDistinct(less, page);
    if |remaining| <= limit {
      AllOnPage(Members(page), remaining);
    }
    if page != [] {
      BeyondIsRest(less, remaining, page, limit);
      BeyondAll(less, collected, remaining, all, page, limit);
    }
  }

  lemma AllOnPage<K>(page: set<K>, remaining: set<K>)
    requires page <= remaining && |page| == |remaining|
    ensures page == remaining
  {
    assert remaining == page + (remaining - page);
  }

  lemma PageFollows<K(!new)>(
      less: (K, K) -> bool, collected: seq<K>, remaining: set<K>, all: set<K>, page: seq<K>, limit: nat)
    requires Walked(less, collected, remaining, all) && IsPage(less, page, remaining, limit)
    ensures Walked(less, collected + page, remaining - Members(page), all)
    ensures Members(collected + page) == Members(collected) + Members(page)
  {
    forall i, k | 0 <= i < |collected| && k in page
      ensures less(collected[i], k)
    {
      assert k in Members(page);
    }
    AppendAscends(less, collected, page);
    assert Members(page) <= remaining;
  }

  /** Nothing collected lies beyond the page. */
  lemma BeyondAll<K(!new)>(
      less: (K, K) -> bool, collected: seq<K>, remaining: set<K>, all: set<K>, page: seq<K>, limit: nat)
    requires StrictOrder(less) && Walked(less, collected, remaining, all) && IsPage(less, page, remaining, limit)
             && page != []
    ensures Beyond(less, all, page[|page| - 1]) == Beyond(less, remaining, page[|page| - 1])
  {
    var last := page[|page| - 1];
    assert last in Members(page);
    forall k | k in all && k !in remaining
      ensures !less(last, k)
    {
      var i :| 0 <= i < |collected| && collected[i] == k;
      assert less(collected[i], last);
    }
  }
}
