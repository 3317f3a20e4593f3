/**
 The bounded round robin over the inbox (internal/mediaingest/manager.go): two max-heaps keep the smallest keys after
 the cursor and up to it, and one scan handles their sorted concatenation.
 */
module MediaScan {
  import opened Ordering

  /** A ready marker: its file name, and the name folded to lower case. */
  datatype Candidate = Candidate(name: string, folded: string)

  const NUL: char := '\0'

  function Key(c: Candidate): string {
    c.folded + [NUL] + c.name
  }

  predicate Less(a: Candidate, b: Candidate) {
    TextLess(Key(a), Key(b))
  }

  predicate AtMost(a: Candidate, b: Candidate) {
    !Less(b, a)
  }

  lemma CandidateOrder()
    ensures forall a, b :: AtMost(a, b) || AtMost(b, a)
    ensures forall a, b :: Less(a, b) ==> AtMost(a, b)
    ensures forall a, b, c :: AtMost(a, b) && AtMost(b, c) ==> AtMost(a, c)
  {
    forall a, b
      ensures AtMost(a, b) || AtMost(b, a)
      ensures Less(a, b) ==> AtMost(a, b)
    {
      TextTrichotomy(Key(a), Key(b));
    }
    forall a, b, c | AtMost(a, b) && AtMost(b, c)
      ensures AtMost(a, c)
    {
      TextTrichotomy(Key(a), Key(b));
      TextTrichotomy(Key(b), Key(c));
      if Less(c, a) {
        if Less(a, b) { TextTransitive(Key(c), Key(a), Key(b)); }
      }
    }
  }

  /** Different names have different keys, since no file name holds a NUL. */
  lemma KeysDiffer(a: Candidate, b: Candidate)
    requires NUL !in a.name && NUL !in b.name
    requires a.name != b.name
    ensures Key(a) != Key(b)
  {
    var x, y := Key(a), Key(b);
    if |a.name| == |b.name| {
      assert x[|x| - |a.name|..] == a.name && y[|y| - |b.name|..] == b.name;
    } else if |a.name| < |b.name| {
      assert x[|x| - |a.name| - 1] == NUL;
      assert |y| == |x| ==> y[|x| - |a.name| - 1] == b.name[|b.name| - |a.name| - 1];
    } else {
      assert y[|y| - |b.name| - 1] == NUL;
      assert |y| == |x| ==> x[|y| - |b.name| - 1] == a.name[|a.name| - |b.name| - 1];
    }
  }

  // ----- the heap -----

  function Parent(i: nat): nat
    requires i > 0
  {
    (i - 1) / 2
  }

  predicate BelowParent(items: seq<Candidate>, i: nat)
    requires 0 < i < |items|
  {
    AtMost(items[i], items[Parent(i)])
  }

  /** The first `n` items are a max-heap, except perhaps the item at `hole` against its parent. */
  ghost predicate HeapAbove(items: seq<Candidate>, n: nat, hole: nat)
    requires n <= |items|
  {
    && (forall i {:trigger BelowParent(items, i)} :: 1 <= i < n && i != hole ==> BelowParent(items, i))
    && (forall i {:trigger Parent(i)} :: 1 <= i < n && Parent(i) == hole > 0 ==> AtMost(items[i], items[Parent(hole)]))
  }

  /** The first `n` items are a max-heap, except perhaps the item at `hole` against its children. */
  ghost predicate HeapBelow(items: seq<Candidate>, n: nat, hole: nat)
    requires n <= |items|
  {
    && (forall i {:trigger BelowParent(items, i)} :: 1 <= i < n && Parent(i) != hole ==> BelowParent(items, i))
    && (forall i {:trigger Parent(i)} :: 1 <= i < n && Parent(i) == hole > 0 ==> AtMost(items[i], items[Parent(hole)]))
  }

  ghost predicate IsHeap(items: seq<Candidate>) {
    forall i {:trigger BelowParent(items, i)} :: 1 <= i < |items| ==> BelowParent(items, i)
  }

  function Swap(items: seq<Candidate>, i: nat, j: nat): (r: seq<Candidate>)
    requires i < |items| && j < |items|
    ensures |r| == |items| && r[i] == items[j] && r[j] == items[i]
    ensures forall k :: 0 <= k < |items| && k != i && k != j ==> r[k] == items[k]
    ensures multiset(r) == multiset(items)
  {
    items[i := items[j]][j := items[i]]
  }

  lemma {:induction false} RootIsLargest(items: seq<Candidate>, i: nat)
    requires IsHeap(items) && i < |items|
    ensures AtMost(items[i], items[0])
  {
    CandidateOrder();
    if i > 0 {
      assert BelowParent(items, i);
      RootIsLargest(items, Parent(i));
    }
  }

  lemma AllBelowRoot(items: seq<Candidate>)
    requires IsHeap(items) && items != []
    ensures forall x :: x in items ==> AtMost(x, items[0])
  {
    forall i | 0 <= i < |items|
      ensures AtMost(items[i], items[0])
    {
      RootIsLargest(items, i);
    }
  }

  /** With the root swapped to the end, only the new root may be out of place. */
  lemma {:induction false} RootSwappedOut(items: seq<Candidate>)
    requires IsHeap(items) && items != []
    ensures HeapBelow(Swap(items, 0, |items| - 1), |items| - 1, 0)
  {
    var n := |items| - 1;
    forall i | 1 <= i < n && Parent(i) != 0
      ensures BelowParent(Swap(items, 0, n), i)
    {
      assert BelowParent(items, i);
    }
  }

  lemma UpStep(items: seq<Candidate>, j: nat)
    requires 0 < j < |items| && HeapAbove(items, |items|, j) && Less(items[Parent(j)], items[j])
    ensures HeapAbove(Swap(items, Parent(j), j), |items|, Parent(j))
  {
    CandidateOrder();
    var p := Parent(j);
    var r := Swap(items, p, j);
    forall i | 1 <= i < |items| && i != p
      ensures BelowParent(r, i)
    {
      assert i != j ==> BelowParent(items, i);
    }
    forall i | 1 <= i < |items| && Parent(i) == p > 0
      ensures AtMost(r[i], r[Parent(p)])
    {
      assert BelowParent(items, p);
      assert i != j ==> BelowParent(items, i);
    }
  }

  lemma DownStep(items: seq<Candidate>, n: nat, i: nat, j: nat)
    requires n <= |items| && i < n && HeapBelow(items, n, i)
    requires 0 < j < n && Parent(j) == i && Less(items[i], items[j])
    requires forall k :: 1 <= k < n && Parent(k) == i ==> AtMost(items[k], items[j])
    ensures HeapBelow(Swap(items, i, j), n, j)
  {
    CandidateOrder();
    var r := Swap(items, i, j);
    forall k | 1 <= k < n && Parent(k) != j
      ensures BelowParent(r, k)
    {
      if k == j {
      } else if Parent(k) == i {
        assert r[k] == items[k];
      } else {
        assert BelowParent(items, k);
      }
    }
    forall k | 1 <= k < n && Parent(k) == j > 0
      ensures AtMost(r[k], r[Parent(j)])
    {
      assert BelowParent(items, k);
    }
  }

  lemma LargestChild(items: seq<Candidate>, n: nat, i: nat, j: nat)
    requires n <= |items| && 2 * i + 1 <= j <= 2 * i + 2 && j < n
    requires j == 2 * i + 1 ==> j + 1 >= n || !Less(items[j], items[j + 1])
    requires j == 2 * i + 2 ==> Less(items[j - 1], items[j])
    ensures Parent(j) == i && forall k :: 1 <= k < n && Parent(k) == i ==> AtMost(items[k], items[j])
    ensures !Less(items[i], items[j]) ==> forall k :: 1 <= k < n && Parent(k) == i ==> BelowParent(items, k)
  {
    CandidateOrder();
    forall k | 1 <= k < n && Parent(k) == i
      ensures AtMost(items[k], items[j])
    {
      assert k == 2 * i + 1 || k == 2 * i + 2;
    }
    if AtMost(items[j], items[i]) {
      forall k | 1 <= k < n && Parent(k) == i
        ensures BelowParent(items, k)
      {
        assert AtMost(items[k], items[j]);
      }
    }
  }

  /** `container/heap` over the candidate slice, largest key first. */
  class CandidateHeap {
    var items: seq<Candidate>

    ghost predicate Valid()
      reads this
    {
      IsHeap(items)
    }

    constructor ()
      ensures Valid() && items == []
    {
      items := [];
    }

    method Push(c: Candidate)
      requires Valid()
      modifies this
      ensures Valid() && multiset(items) == multiset(old(items)) + multiset{c}
    {
      assert forall i :: 1 <= i < |items| ==> BelowParent(items, i);
      items := items + [c];
      assert forall i {:trigger BelowParent(items, i)} :: 1 <= i < |items| - 1 ==> BelowParent(old(items), i);
      var j := |items| - 1;
      while j > 0 && Less(items[Parent(j)], items[j])
        invariant 0 <= j < |items|
        invariant HeapAbove(items, |items|, j)
        invariant multiset(items) == multiset(old(items)) + multiset{c}
      {
        UpStep(items, j);
        items := Swap(items, Parent(j), j);
        j := Parent(j);
      }
    }

    /** Moves the item at the root down among the first `n`. */
    method Down(n: nat)
      requires n < |items| && HeapBelow(items, n, 0)
      modifies this
      ensures |items| == |old(items)| && items[n] == old(items)[n] && multiset(items) == multiset(old(items))
      ensures IsHeap(items[..n])
    {
      var i, settled := 0, false;
      while !settled
        invariant i < n || n == 0
        invariant |items| == |old(items)| && items[n] == old(items)[n] && multiset(items) == multiset(old(items))
        invariant HeapBelow(items, n, i)
        invariant settled ==> forall k {:trigger Parent(k)} :: 1 <= k < n && Parent(k) == i ==> BelowParent(items, k)
        decreases !settled, n - i
      {
        var j := 2 * i + 1;
        if j >= n {
          settled := true;
        } else {
          if j + 1 < n && Less(items[j], items[j + 1]) { j := j + 1; }
          LargestChild(items, n, i, j);
          if Less(items[i], items[j]) {
            DownStep(items, n, i, j);
            items := Swap(items, i, j);
            i := j;
          } else {
            settled := true;
          }
        }
      }
      forall k | 1 <= k < n
        ensures BelowParent(items[..n], k)
      {
        assert Parent(k) == i || BelowParent(items, k);
      }
    }

    /** Takes out a candidate with the largest key. */
    method Pop() returns (c: Candidate)
      requires Valid() && items != []
      modifies this
      ensures Valid() && c in old(items) && multiset(items) == multiset(old(items)) - multiset{c}
      ensures c == old(items)[0] && forall x :: x in old(items) ==> AtMost(x, c)
    {
      ghost var was := items;
      var n := |items| - 1;
      AllBelowRoot(was);
      RootSwappedOut(was);
      items := Swap(items, 0, n);
      Down(n);
      c := items[n];
      LastTaken(was, items);
      items := items[..n];
    }
  }

  lemma {:induction false} LastTaken(was: seq<Candidate>, items: seq<Candidate>)
    requires multiset(items) == multiset(was) && items != []
    ensures var n := |items| - 1;
            items[n] in was && multiset(items[..n]) == multiset(was) - multiset{items[n]}
  {
    var n := |items| - 1;
    assert items == items[..n] + [items[n]];
    assert items[n] in multiset(was);
  }

  // ----- the smallest candidates of a stream -----

  /** `kept` are `limit` smallest candidates of `seen`, or all of them when there are fewer. */
  ghost predicate Smallest(kept: multiset<Candidate>, seen: multiset<Candidate>, limit: nat) {
    && kept <= seen && |kept| == Min(limit, |seen|)
    && forall x, y :: x in kept && y in seen - kept ==> AtMost(x, y)
  }

  lemma SubsetOfSameSize<T>(a: multiset<T>, b: multiset<T>)
    requires a <= b && |a| == |b|
    ensures a == b
  {
    assert b == a + (b - a) && |b - a| == 0;
  }

  lemma KeepsAll(kept: multiset<Candidate>, seen: multiset<Candidate>, limit: nat, c: Candidate)
    requires Smallest(kept, seen, limit) && |kept| < limit
    ensures Smallest(kept + multiset{c}, seen + multiset{c}, limit)
  {
    SubsetOfSameSize(kept, seen);
  }

  lemma ReplacesLargest(
      kept: multiset<Candidate>, seen: multiset<Candidate>, limit: nat, largest: Candidate, c: Candidate)
    requires Smallest(kept, seen, limit) && |kept| == limit
    requires largest in kept && forall x :: x in kept ==> AtMost(x, largest)
    ensures Less(c, largest) ==> Smallest(kept - multiset{largest} + multiset{c}, seen + multiset{c}, limit)
    ensures !Less(c, largest) ==> Smallest(kept, seen + multiset{c}, limit)
  {
    CandidateOrder();
    if Less(c, largest) {
      var kept' := kept - multiset{largest} + multiset{c};
      assert seen + multiset{c} - kept' == (seen - kept) + multiset{largest};
      forall x, y | x in kept' && y in seen + multiset{c} - kept'
        ensures AtMost(x, y)
      {
        assert AtMost(x, largest) by { assert x == c || x in kept; }
        assert AtMost(largest, y) by { assert y == largest || y in seen - kept; }
      }
    } else {
      assert seen + multiset{c} - kept == (seen - kept) + multiset{c};
      forall x, y | x in kept && y in seen + multiset{c} - kept
        ensures AtMost(x, y)
      {
        assert AtMost(x, largest) && AtMost(largest, c);
        assert y == c || y in seen - kept;
      }
    }
  }

  /** One more candidate of the stream `seen`: the heap still holds its smallest. */
  method RetainSmallest(candidates: CandidateHeap, candidate: Candidate, limit: nat, ghost seen: multiset<Candidate>)
    requires candidates.Valid() && Smallest(multiset(candidates.items), seen, limit)
    modifies candidates
    ensures candidates.Valid() && Smallest(multiset(candidates.items), seen + multiset{candidate}, limit)
  {
    ghost var kept := multiset(candidates.items);
    assert |kept| == |candidates.items|;
    if |candidates.items| < limit {
      KeepsAll(kept, seen, limit, candidate);
      candidates.Push(candidate);
    } else if limit > 0 {
      ghost var largest := candidates.items[0];
      forall x | x in kept
        ensures AtMost(x, largest)
      {
        var i :| 0 <= i < |candidates.items| && candidates.items[i] == x;
        RootIsLargest(candidates.items, i);
      }
      ReplacesLargest(kept, seen, limit, largest, candidate);
      if Less(candidate, candidates.items[0]) {
        var _ := candidates.Pop();
        candidates.Push(candidate);
      }
    } else {
      assert kept == multiset{};
    }
  }

  // ----- one scan -----

  predicate Ahead(cursor: string, c: Candidate) {
    TextLess(cursor, Key(c))
  }

  /** The cyclic order that starts just after the cursor. */
  predicate Before(cursor: string, a: Candidate, b: Candidate) {
    if Ahead(cursor, a) == Ahead(cursor, b) then Less(a, b) else Ahead(cursor, a)
  }

  /** `handled` is an initial part of the listing in cyclic order, each entry once. */
  ghost predicate StartsCycle(handled: seq<Candidate>, listing: seq<Candidate>, cursor: string) {
    && (forall i :: 0 <= i < |handled| ==> handled[i] in listing)
    && (forall i, j :: 0 <= i < j < |handled| ==> Before(cursor, handled[i], handled[j]))
    && (forall c, i :: c in listing && c !in handled && 0 <= i < |handled| ==> Before(cursor, handled[i], c))
  }

  predicate DistinctNames(listing: seq<Candidate>) {
    && (forall i :: 0 <= i < |listing| ==> NUL !in listing[i].name)
    && (forall i, j :: 0 <= i < j < |listing| ==> listing[i].name != listing[j].name)
  }

  /** What the two heaps hold, sorted: `a` from the entries `after` the cursor, `w` from the wrapped ones. */
  ghost predicate Chosen(s: seq<Candidate>, all: multiset<Candidate>, limit: nat) {
    && Smallest(multiset(s), all, limit)
    && Sorted(AtMost, s)
  }

  lemma AtMostAndOther(listing: seq<Candidate>, x: Candidate, y: Candidate)
    requires DistinctNames(listing) && x in listing && y in listing && x != y && AtMost(x, y)
    ensures Less(x, y)
  {
    KeysDiffer(x, y);
    TextTrichotomy(Key(x), Key(y));
  }

  /** Within one heap: what is chosen, at whatever length, comes strictly before everything else. */
  lemma ChosenBefore(
      s: seq<Candidate>, all: multiset<Candidate>, limit: nat, listing: seq<Candidate>, i: nat, n: nat, y: Candidate)
    requires Chosen(s, all, limit) && DistinctNames(listing) && all <= multiset(listing)
    requires i < n <= |s| && y in all && y !in s[..n]
    ensures Less(s[i], y)
  {
    assert s[i] in multiset(s) && s[i] in all && s[i] in multiset(listing) && y in multiset(listing);
    assert s[i] in s[..n];
    if y in s {
      var j :| 0 <= j < |s| && s[j] == y;
      assert AtMost(s[i], s[j]);
    } else {
      assert y in all - multiset(s);
    }
    AtMostAndOther(listing, s[i], y);
  }

  lemma ChosenIncreases(
      s: seq<Candidate>, all: multiset<Candidate>, limit: nat, listing: seq<Candidate>, i: nat, j: nat)
    requires Chosen(s, all, limit) && DistinctNames(listing) && all <= multiset(listing)
    requires i < j < |s|
    ensures s[i] in listing && s[j] in listing && Less(s[i], s[j])
  {
    assert s[i] in multiset(s) && s[j] in multiset(s);
    assert s[i] in multiset(listing) && s[j] in multiset(listing);
    if s[i] == s[j] {
      RepeatCountsTwice(s, i, j);
      DistinctCountsOnce(listing, s[i]);
      assert false;
    }
    AtMostAndOther(listing, s[i], s[j]);
  }

  lemma SelectionSize(
      a: seq<Candidate>, w: seq<Candidate>, after: multiset<Candidate>, wrapped: multiset<Candidate>,
      listing: seq<Candidate>, limit: nat)
    requires after + wrapped == multiset(listing)
    requires Smallest(multiset(a), after, limit) && Smallest(multiset(w), wrapped, limit)
    ensures |a| <= limit && |a + w[..Min(limit - |a|, |w|)]| == Min(limit, |listing|)
  {
    assert |multiset(a)| == |a| && |multiset(w)| == |w| && |after + wrapped| == |multiset(listing)| == |listing|;
  }

  ghost predicate CyclicPair(a: seq<Candidate>, w: seq<Candidate>, cursor: string) {
    && (forall i :: 0 <= i < |a| ==> Ahead(cursor, a[i]))
    && (forall i :: 0 <= i < |w| ==> !Ahead(cursor, w[i]))
    && (forall i, j :: 0 <= i < j < |a| ==> Less(a[i], a[j]))
    && (forall i, j :: 0 <= i < j < |w| ==> Less(w[i], w[j]))
  }

  lemma ChosenArePair(
      a: seq<Candidate>, w: seq<Candidate>, after: multiset<Candidate>, wrapped: multiset<Candidate>,
      listing: seq<Candidate>, cursor: string, limit: nat)
    requires DistinctNames(listing) && Divided(after, wrapped, multiset(listing), cursor)
    requires Chosen(a, after, limit) && Chosen(w, wrapped, limit)
    ensures CyclicPair(a, w, cursor)
  {
    forall i, j | 0 <= i < j < |a| ensures Less(a[i], a[j]) { ChosenIncreases(a, after, limit, listing, i, j); }
    forall i, j | 0 <= i < j < |w| ensures Less(w[i], w[j]) { ChosenIncreases(w, wrapped, limit, listing, i, j); }
  }

  lemma SelectedAreListed(
      a: seq<Candidate>, w: seq<Candidate>, n: nat, after: multiset<Candidate>, wrapped: multiset<Candidate>,
      listing: seq<Candidate>, limit: nat)
    requires after + wrapped == multiset(listing) && n <= |w|
    requires Chosen(a, after, limit) && Chosen(w, wrapped, limit)
    ensures var s := a + w[..n]; forall i :: 0 <= i < |s| ==> s[i] in listing
  {
    var s := a + w[..n];
    forall i | 0 <= i < |s|
      ensures s[i] in listing
    {
      assert s[i] in multiset(listing);
    }
  }

  /** The first `limit` of the two sorted heaps start the cycle. */
  lemma SelectionStartsCycle(
      a: seq<Candidate>, w: seq<Candidate>, after: multiset<Candidate>, wrapped: multiset<Candidate>,
      listing: seq<Candidate>, cursor: string, limit: nat)
    requires DistinctNames(listing) && Divided(after, wrapped, multiset(listing), cursor)
    requires Chosen(a, after, limit) && Chosen(w, wrapped, limit)
    requires |a| <= limit
    ensures StartsCycle(a + w[..Min(limit - |a|, |w|)], listing, cursor)
  {
    var n := Min(limit - |a|, |w|);
    ChosenArePair(a, w, after, wrapped, listing, cursor, limit);
    SelectedAreListed(a, w, n, after, wrapped, listing, limit);
    forall c, i | c in listing && c !in a + w[..n] && 0 <= i < |a + w[..n]|
      ensures Before(cursor, (a + w[..n])[i], c)
    {
      LeftOutComesLater(a, w, n, after, wrapped, listing, cursor, limit, c, i);
    }
  }

  /** What the first heap left out comes after all it kept, and it kept `limit`. */
  lemma {:induction false} LeftOutOfFirst(
      a: seq<Candidate>, after: multiset<Candidate>, limit: nat, listing: seq<Candidate>, c: Candidate, i: nat)
    requires Chosen(a, after, limit) && DistinctNames(listing) && after <= multiset(listing)
    requires c in after && c !in a
    ensures |a| >= limit && (i < |a| ==> Less(a[i], c))
  {
    if |a| < limit {
      SubsetOfSameSize(multiset(a), after);
      assert false;
    } else if i < |a| {
      assert a[..|a|] == a;
      ChosenBefore(a, after, limit, listing, i, |a|, c);
    }
  }

  lemma LeftOutComesLater(
      a: seq<Candidate>, w: seq<Candidate>, n: nat, after: multiset<Candidate>, wrapped: multiset<Candidate>,
      listing: seq<Candidate>, cursor: string, limit: nat, c: Candidate, i: nat)
    requires DistinctNames(listing) && Divided(after, wrapped, multiset(listing), cursor)
    requires Chosen(a, after, limit) && Chosen(w, wrapped, limit)
    requires |a| <= limit && n == Min(limit - |a|, |w|)
    requires c in listing && c !in a + w[..n] && i < |a + w[..n]|
    ensures Before(cursor, (a + w[..n])[i], c)
  {
    assert c in multiset(listing) && (c in after || c in wrapped);
    if c in after {
      LeftOutOfFirst(a, after, limit, listing, c, if i < |a| then i else 0);
      ChosenIsMember(a, after, limit, if i < |a| then i else 0);
    } else if i < |a| {
      ChosenIsMember(a, after, limit, i);
    } else {
      ChosenBefore(w, wrapped, limit, listing, i - |a|, n, c);
      ChosenIsMember(w, wrapped, limit, i - |a|);
    }
  }

  lemma {:induction false} ChosenIsMember(s: seq<Candidate>, all: multiset<Candidate>, limit: nat, i: nat)
    requires Chosen(s, all, limit)
    ensures i < |s| ==> s[i] in all
  {
    assert i < |s| ==> s[i] in multiset(s);
  }

  /** Appends from `more` until `limit` are selected. */
  method TakeUpTo(selected: seq<Candidate>, more: seq<Candidate>, limit: nat) returns (r: seq<Candidate>)
    requires |selected| <= limit
    ensures r == selected + more[..Min(limit - |selected|, |more|)]
  {
    r := selected;
    for k := 0 to |more|
      invariant k <= limit - |selected| && r == selected + more[..k]
    {
      if |r| == limit { return; }
      r := r + [more[k]];
    }
  }

  class Scanner {
    var cursor: string

    constructor ()
      ensures cursor == ""
    {
      cursor := "";
    }

    /**
     One scan of the unconfirmed ready markers, with the storage gate open for `allowed` of them. The handled ones are
     the next in cyclic key order after the cursor, each once, and the cursor moves to the last.
     */
    method ScanOnce(listing: seq<Candidate>, limit: nat, allowed: nat) returns (handled: seq<Candidate>)
      requires DistinctNames(listing)
      modifies this
      ensures StartsCycle(handled, listing, old(cursor))
      ensures |handled| == Min(allowed, Min(limit, |listing|))
      ensures cursor == if handled == [] then old(cursor) else Key(handled[|handled| - 1])
    {
      var selected := Select(listing, limit);
      handled := Handle(selected, allowed);
    }

    /** The selected entries in turn, until the storage gate closes. */
    method Handle(selected: seq<Candidate>, allowed: nat) returns (handled: seq<Candidate>)
      modifies this
      ensures handled == selected[..Min(allowed, |selected|)]
      ensures cursor == if handled == [] then old(cursor) else Key(handled[|handled| - 1])
    {
      handled := [];
      for k := 0 to |selected|
        invariant handled == selected[..k] && k <= allowed
        invariant cursor == if k == 0 then old(cursor) else Key(selected[k - 1])
      {
        if k == allowed { break; }
        assert selected[..k + 1] == selected[..k] + [selected[k]];
        cursor := Key(selected[k]);
        handled := handled + [selected[k]];
      }
    }

    /** The bounded heaps, then the sorted selection. */
    method Select(listing: seq<Candidate>, limit: nat) returns (selected: seq<Candidate>)
      requires DistinctNames(listing)
      ensures StartsCycle(selected, listing, cursor) && |selected| == Min(limit, |listing|)
    {
      ghost var after, behind;
      var a, w;
      a, w, after, behind := SmallestPerSide(listing, limit, cursor);
      SelectionSize(a, w, after, behind, listing, limit);
      SelectionStartsCycle(a, w, after, behind, listing, cursor, limit);
      selected := TakeUpTo([], a, limit);
      assert selected == a;
      selected := TakeUpTo(selected, w, limit);
    }
  }

  /** The two bounded heaps over the stream of entries, sorted. */
  method SmallestPerSide(listing: seq<Candidate>, limit: nat, cursor: string)
    returns (a: seq<Candidate>, w: seq<Candidate>, ghost after: multiset<Candidate>, ghost behind: multiset<Candidate>)
    ensures Divided(after, behind, multiset(listing), cursor)
    ensures Chosen(a, after, limit) && Chosen(w, behind, limit)
  {
    var afterCursor := new CandidateHeap();
    var wrapped := new CandidateHeap();
    after, behind := FillHeaps(listing, limit, cursor, afterCursor, wrapped);
    a := SortHeap(afterCursor, limit, after);
    w := SortHeap(wrapped, limit, behind);
  }

  method FillHeaps(
      listing: seq<Candidate>, limit: nat, cursor: string, afterCursor: CandidateHeap, wrapped: CandidateHeap)
    returns (ghost after: multiset<Candidate>, ghost behind: multiset<Candidate>)
    requires afterCursor != wrapped && afterCursor.items == [] && wrapped.items == []
    modifies afterCursor, wrapped
    ensures Divided(after, behind, multiset(listing), cursor)
    ensures Holds(afterCursor, after, limit) && Holds(wrapped, behind, limit)
  {
    after, behind := multiset{}, multiset{};
    ghost var seen: multiset<Candidate> := multiset{};
    for k := 0 to |listing|
      invariant Holds(afterCursor, after, limit) && Holds(wrapped, behind, limit)
      invariant Divided(after, behind, seen, cursor)
      invariant seen == multiset(listing[..k])
    {
      PrefixGrows(listing, k);
      after, behind := Offer(afterCursor, wrapped, listing[k], limit, cursor, after, behind, seen);
      seen := seen + multiset{listing[k]};
    }
    assert listing[..|listing|] == listing;
  }

  lemma PrefixGrows<T>(s: seq<T>, k: nat)
    requires k < |s|
    ensures multiset(s[..k + 1]) == multiset(s[..k]) + multiset{s[k]}
  {
    assert s[..k + 1] == s[..k] + [s[k]];
  }

  ghost predicate Holds(heap: CandidateHeap, all: multiset<Candidate>, limit: nat)
    reads heap
  {
    heap.Valid() && Smallest(multiset(heap.items), all, limit)
  }

  /** `seen` divided at the cursor. */
  ghost predicate Divided(
      after: multiset<Candidate>, behind: multiset<Candidate>, seen: multiset<Candidate>, cursor: string)
  {
    && after + behind == seen
    && (forall c :: c in after ==> Ahead(cursor, c))
    && (forall c :: c in behind ==> !Ahead(cursor, c))
  }

  method Offer(
      afterCursor: CandidateHeap, wrapped: CandidateHeap, candidate: Candidate, limit: nat, cursor: string,
      ghost after: multiset<Candidate>, ghost behind: multiset<Candidate>, ghost seen: multiset<Candidate>)
    returns (ghost after': multiset<Candidate>, ghost behind': multiset<Candidate>)
    requires afterCursor != wrapped && Holds(afterCursor, after, limit) && Holds(wrapped, behind, limit)
    requires Divided(after, behind, seen, cursor)
    modifies afterCursor, wrapped
    ensures Holds(afterCursor, after', limit) && Holds(wrapped, behind', limit)
    ensures Divided(after', behind', seen + multiset{candidate}, cursor)
  {
    after', behind' := after, behind;
    if Ahead(cursor, candidate) {
      RetainSmallest(afterCursor, candidate, limit, after);
      after' := after + multiset{candidate};
    } else {
      RetainSmallest(wrapped, candidate, limit, behind);
      behind' := behind + multiset{candidate};
    }
  }

  method SortHeap(heap: CandidateHeap, limit: nat, ghost all: multiset<Candidate>) returns (s: seq<Candidate>)
    requires Holds(heap, all, limit)
    ensures Chosen(s, all, limit)
  {
    CandidateOrder();
    s := SortSlice(heap.items, AtMost);
  }

  // ----- fairness -----

  /** One recorded scan. */
  datatype Scan = Scan(listing: seq<Candidate>, cursor: string, handled: seq<Candidate>)

  function CursorAfter(scan: Scan): string {
    if scan.handled == [] then scan.cursor else Key(scan.handled[|scan.handled| - 1])
  }

  /** Consecutive scans, however short each was cut, while no entry arrives; entries may be confirmed and leave. */
  ghost predicate QuietRun(scans: seq<Scan>) {
    && (forall i :: 0 <= i < |scans| ==>
        DistinctNames(scans[i].listing) && StartsCycle(scans[i].handled, scans[i].listing, scans[i].cursor))
    && (forall i, j :: 0 <= i && j == i + 1 < |scans| ==> Follows(scans[i], scans[j]))
  }

  ghost predicate Follows(scan: Scan, next: Scan) {
    && next.cursor == CursorAfter(scan)
    && forall c :: c in next.listing ==> c in scan.listing
  }

  /** The entries a scan puts before `x`. */
  ghost function Waiting(scan: Scan, x: Candidate): set<Candidate> {
    set y | y in scan.listing && Before(scan.cursor, y, x)
  }

  /** How many entries the first `k` scans handled in all. */
  function Handled(scans: seq<Scan>, k: nat): nat
    requires k <= |scans|
  {
    if k == 0 then 0 else Handled(scans, k - 1) + |scans[k - 1].handled|
  }

  /** After handling `last` before `x`, whatever is now before `x` was before `x`, and after `last`. */
  lemma CursorMoves(cursor: string, last: Candidate, y: Candidate, x: Candidate)
    requires Before(cursor, last, x) && Before(Key(last), y, x)
    ensures Before(cursor, y, x) && Before(cursor, last, y)
  {
    var c, l, ky, kx := cursor, Key(last), Key(y), Key(x);
    TextTrichotomy(c, l); TextTrichotomy(c, ky); TextTrichotomy(c, kx);
    TextTrichotomy(l, ky); TextTrichotomy(l, kx); TextTrichotomy(ky, kx);
    if TextLess(c, l) && TextLess(l, ky) { TextTransitive(c, l, ky); }
    if TextLess(l, kx) && TextLess(kx, ky) { TextTransitive(l, kx, ky); }
    if TextLess(ky, kx) && TextLess(kx, c) { TextTransitive(ky, kx, c); }
    if TextLess(c, l) && TextLess(l, kx) { TextTransitive(c, l, kx); }
    if TextLess(kx, c) && TextLess(c, l) { TextTransitive(kx, c, l); }
    if TextLess(ky, c) && TextLess(c, l) { TextTransitive(ky, c, l); }
    if TextLess(l, kx) && TextLess(kx, c) { TextTransitive(l, kx, c); }
    if TextLess(c, kx) && TextLess(kx, ky) { TextTransitive(c, kx, ky); }
    if TextLess(l, ky) && TextLess(ky, c) { TextTransitive(l, ky, c); }
    if TextLess(l, ky) && TextLess(ky, kx) { TextTransitive(l, ky, kx); }
    if TextLess(kx, l) && TextLess(l, ky) { TextTransitive(kx, l, ky); }
    if TextLess(ky, kx) && TextLess(kx, l) { TextTransitive(ky, kx, l); }
    if TextLess(c, ky) && TextLess(ky, kx) { TextTransitive(c, ky, kx); }
    if TextLess(c, ky) && TextLess(ky, l) { TextTransitive(c, ky, l); }
  }

  lemma NotBeforeItself(cursor: string, a: Candidate, b: Candidate)
    ensures !(Before(cursor, a, b) && Before(cursor, b, a)) && !Before(cursor, a, a)
  {
    TextTrichotomy(Key(a), Key(b));
    TextTrichotomy(Key(a), Key(a));
  }

  /** A scan that leaves `x` unhandled removes all it handled from those waiting before `x`. */
  lemma WaitingShrinks(scan: Scan, next: Scan, x: Candidate)
    requires StartsCycle(scan.handled, scan.listing, scan.cursor) && Follows(scan, next)
    requires x in scan.listing && x !in scan.handled
    ensures Members(scan.handled) <= Waiting(scan, x)
    ensures Waiting(next, x) <= Waiting(scan, x) - Members(scan.handled)
  {
    forall y | y in Waiting(next, x)
      ensures y in Waiting(scan, x) && y !in scan.handled
    {
      if scan.handled != [] {
        var n := |scan.handled| - 1;
        var last := scan.handled[n];
        CursorMoves(scan.cursor, last, y, x);
        if y in scan.handled {
          var i :| 0 <= i < |scan.handled| && scan.handled[i] == y;
          NotBeforeItself(scan.cursor, last, y);
        }
      }
    }
  }

  lemma HandledAreDistinct(scan: Scan)
    requires StartsCycle(scan.handled, scan.listing, scan.cursor)
    ensures |Members(scan.handled)| == |scan.handled|
  {
    forall i, j | 0 <= i < j < |scan.handled|
      ensures scan.handled[i] != scan.handled[j]
    {
      NotBeforeItself(scan.cursor, scan.handled[i], scan.handled[j]);
    }
    MembersSize(scan.handled);
  }

  lemma SubsetSize<T>(a: set<T>, b: set<T>)
    requires a <= b
    ensures |a| <= |b| && |b - a| == |b| - |a|
  {
  }

  /** While `x` stays unhandled, what has been handled and what still waits before it never exceed the other entries. */
  lemma {:induction false} HandledBeforeX(scans: seq<Scan>, x: Candidate, k: nat)
    requires QuietRun(scans) && k < |scans|
    requires forall i :: 0 <= i <= k ==> x in scans[i].listing
    requires forall i :: 0 <= i < k ==> x !in scans[i].handled
    ensures Handled(scans, k) + |Waiting(scans[k], x)| < |scans[0].listing|
  {
    if k == 0 {
      NotBeforeItself(scans[0].cursor, x, x);
      var all := Members(scans[0].listing);
      MembersSize(scans[0].listing);
      assert Waiting(scans[0], x) <= all - {x} && x in all;
      SubsetSize(Waiting(scans[0], x), all - {x});
    } else {
      HandledBeforeX(scans, x, k - 1);
      assert Follows(scans[k - 1], scans[k]);
      WaitingShrinks(scans[k - 1], scans[k], x);
      HandledAreDistinct(scans[k - 1]);
      SubsetSize(Members(scans[k - 1].handled), Waiting(scans[k - 1], x));
      SubsetSize(Waiting(scans[k], x), Waiting(scans[k - 1], x) - Members(scans[k - 1].handled));
    }
  }

  /** Once as many entries have been handled as there were, every entry that is still listed has been handled. */
  lemma EveryEntryIsReached(scans: seq<Scan>, x: Candidate)
    requires QuietRun(scans) && |scans| > 0
    requires forall i :: 0 <= i < |scans| ==> x in scans[i].listing
    requires Handled(scans, |scans|) >= |scans[0].listing|
    ensures exists i :: 0 <= i < |scans| && x in scans[i].handled
  {
    if forall i :: 0 <= i < |scans| ==> x !in scans[i].handled {
      var k := |scans| - 1;
      HandledBeforeX(scans, x, k);
      WaitingShrinks(scans[k], Scan([], CursorAfter(scans[k]), []), x);
      HandledAreDistinct(scans[k]);
      SubsetSize(Members(scans[k].handled), Waiting(scans[k], x));
      assert false;
    }
  }

  /** Every uninterrupted scan handles `limit` entries, or all there are. */
  ghost predicate Uninterrupted(scans: seq<Scan>, limit: nat) {
    forall i :: 0 <= i < |scans| ==> |scans[i].handled| == Min(limit, |scans[i].listing|)
  }

  lemma {:induction false} FullScans(scans: seq<Scan>, limit: nat, k: nat)
    requires Uninterrupted(scans, limit) && k <= |scans|
    requires forall i :: 0 <= i < k ==> |scans[i].listing| > limit
    ensures Handled(scans, k) == k * limit
  {
    if k > 0 {
      FullScans(scans, limit, k - 1);
    }
  }

  lemma AllHandled(scan: Scan, x: Candidate)
    requires StartsCycle(scan.handled, scan.listing, scan.cursor) && x in scan.listing
             && |scan.handled| == |scan.listing|
    ensures x in scan.handled
  {
    HandledAreDistinct(scan);
    MembersSize(scan.listing);
    assert Members(scan.handled) <= Members(scan.listing);
    SubsetSize(Members(scan.handled), Members(scan.listing));
    assert Members(scan.listing) - Members(scan.handled) == {};
    assert x in Members(scan.listing);
  }

  lemma CeilingCovers(n: nat, limit: nat)
    requires limit > 0
    ensures (n + limit - 1) / limit * limit >= n
  {
  }

  /** With `n` entries and no arrivals, ceil(n / limit) uninterrupted scans handle every entry that remains. */
  lemma FairScan(scans: seq<Scan>, limit: nat, x: Candidate)
    requires QuietRun(scans) && Uninterrupted(scans, limit) && limit > 0 && |scans| > 0
    requires |scans| == (|scans[0].listing| + limit - 1) / limit
    requires forall i :: 0 <= i < |scans| ==> x in scans[i].listing
    ensures exists i :: 0 <= i < |scans| && x in scans[i].handled
  {
    if i :| 0 <= i < |scans| && |scans[i].listing| <= limit {
      AllHandled(scans[i], x);
    } else {
      FullScans(scans, limit, |scans|);
      var n := |scans[0].listing|;
      CeilingCovers(n, limit);
      EveryEntryIsReached(scans, x);
    }
  }

  /** No file of `listing` is missing from the one before: between two scans files only go. */
  ghost predicate NoArrivals(listings: seq<seq<Candidate>>) {
    forall i, j :: 0 <= i && j == i + 1 < |listings| ==> OnlyFrom(listings[i], listings[j])
  }

  ghost predicate OnlyFrom(listing: seq<Candidate>, next: seq<Candidate>) {
    forall c :: c in next ==> c in listing
  }

  /** The scans so far went over the first listings, each in full. */
  ghost predicate Scanned(scans: seq<Scan>, listings: seq<seq<Candidate>>, limit: nat, cursor: string) {
    && |scans| <= |listings| && (forall i :: 0 <= i < |scans| ==> scans[i].listing == listings[i])
    && QuietRun(scans) && Uninterrupted(scans, limit)
    && (scans != [] ==> cursor == CursorAfter(scans[|scans| - 1]))
  }

  lemma {:induction false} ScannedGrows(scans: seq<Scan>, listings: seq<seq<Candidate>>, limit: nat, scan: Scan)
    requires Scanned(scans, listings, limit, scan.cursor) && |scans| < |listings| && scan.listing == listings[|scans|]
    requires NoArrivals(listings) && DistinctNames(scan.listing)
    requires StartsCycle(scan.handled, scan.listing, scan.cursor) && |scan.handled| == Min(limit, |scan.listing|)
    ensures Scanned(scans + [scan], listings, limit, CursorAfter(scan))
  {
    if scans != [] {
      assert OnlyFrom(listings[|scans| - 1], listings[|scans|]);
      assert Follows(scans[|scans| - 1], scan);
    }
  }

  /** Uninterrupted scans of the given listings are such a run, whatever the cursor was. */
  method RunScans(scanner: Scanner, listings: seq<seq<Candidate>>, limit: nat) returns (scans: seq<Scan>)
    requires forall i :: 0 <= i < |listings| ==> DistinctNames(listings[i])
    requires NoArrivals(listings)
    modifies scanner
    ensures |scans| == |listings| && forall i :: 0 <= i < |scans| ==> scans[i].listing == listings[i]
    ensures QuietRun(scans) && Uninterrupted(scans, limit)
  {
    scans := [];
    for k := 0 to |listings|
      invariant |scans| == k && Scanned(scans, listings, limit, scanner.cursor)
    {
      var cursor := scanner.cursor;
      var handled := scanner.ScanOnce(listings[k], limit, |listings[k]|);
      ScannedGrows(scans, listings, limit, Scan(listings[k], cursor, handled));
      scans := scans + [Scan(listings[k], cursor, handled)];
    }
  }
}
