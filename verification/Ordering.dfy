/** Orders the recorder relies on: Go's byte order of strings, `sort.Slice`, and sorted sets of text. */
module Ordering {

  // ----- the byte order of strings -----

  /** `a < b` on strings: the first difference decides, and a proper prefix comes first. */
  predicate TextLess(a: string, b: string) {
    |b| > 0 && (|a| == 0 || a[0] < b[0] || (a[0] == b[0] && TextLess(a[1..], b[1..])))
  }

  lemma {:induction false} TextTrichotomy(a: string, b: string)
    ensures TextLess(a, b) || a == b || TextLess(b, a)
    ensures !(TextLess(a, b) && TextLess(b, a))
  {
    if |a| > 0 && |b| > 0 && a[0] == b[0] {
      TextTrichotomy(a[1..], b[1..]);
      assert a == [a[0]] + a[1..] && b == [b[0]] + b[1..];
    }
  }

  lemma {:induction false} TextTransitive(a: string, b: string, c: string)
    requires TextLess(a, b) && TextLess(b, c)
    ensures TextLess(a, c)
  {
    if |a| > 0 && a[0] == b[0] && b[0] == c[0] {
      TextTransitive(a[1..], b[1..], c[1..]);
    }
  }

  /** `TextLess` is a strict total order, with the quantifiers spelled out for callers. */
  lemma TextOrder()
    ensures forall a, b :: TextLess(a, b) || a == b || TextLess(b, a)
    ensures forall a, b :: !(TextLess(a, b) && TextLess(b, a))
    ensures forall a, b, c :: TextLess(a, b) && TextLess(b, c) ==> TextLess(a, c)
  {
    forall a, b
      ensures TextLess(a, b) || a == b || TextLess(b, a)
      ensures !(TextLess(a, b) && TextLess(b, a))
    {
      TextTrichotomy(a, b);
    }
    forall a, b, c | TextLess(a, b) && TextLess(b, c)
      ensures TextLess(a, c)
    {
      TextTransitive(a, b, c);
    }
  }

  // ----- sort.Slice -----

  /** `le` is reflexive, total and transitive; distinct elements may still tie. */
  ghost predicate TotalPreorder<T(!new)>(le: (T, T) -> bool) {
    && (forall x, y :: le(x, y) || le(y, x))
    && (forall x, y, z :: le(x, y) && le(y, z) ==> le(x, z))
  }

  ghost predicate Sorted<T(!new)>(le: (T, T) -> bool, s: seq<T>) {
    forall i, j :: 0 <= i < j < |s| ==> le(s[i], s[j])
  }

  lemma SortedAround<T(!new)>(le: (T, T) -> bool, r: seq<T>, p: nat, x: T)
    requires TotalPreorder(le) && Sorted(le, r) && p <= |r|
    requires forall j :: 0 <= j < p ==> le(r[j], x)
    requires p < |r| ==> le(x, r[p])
    ensures Sorted(le, r[..p] + [x] + r[p..])
  {
  }

  method Insert<T(!new)>(r: seq<T>, x: T, le: (T, T) -> bool) returns (q: seq<T>)
    requires TotalPreorder(le) && Sorted(le, r)
    ensures multiset(q) == multiset(r) + multiset{x} && Sorted(le, q)
  {
    var p := 0;
    while p < |r| && le(r[p], x)
      invariant 0 <= p <= |r|
      invariant forall j :: 0 <= j < p ==> le(r[j], x)
    {
      p := p + 1;
    }
    SortedAround(le, r, p, x);
    assert r == r[..p] + r[p..];
    q := r[..p] + [x] + r[p..];
  }

  /** The library sort: any rearrangement in order. Where elements tie nothing is promised, as in Go. */
  method SortSlice<T(!new)>(s: seq<T>, le: (T, T) -> bool) returns (r: seq<T>)
    requires TotalPreorder(le)
    ensures multiset(r) == multiset(s)
    ensures Sorted(le, r)
  {
    r := [];
    for i := 0 to |s|
      invariant multiset(r) == multiset(s[..i])
      invariant Sorted(le, r)
    {
      assert s[..i + 1] == s[..i] + [s[i]];
      r := Insert(r, s[i], le);
    }
    assert s[..|s|] == s;
  }

  /** A rearrangement has the same members and the same length. */
  lemma SameMultiset<T>(r: seq<T>, s: seq<T>)
    requires multiset(r) == multiset(s)
    ensures |r| == |s|
    ensures forall x :: x in r <==> x in s
  {
    assert |multiset(r)| == |multiset(s)|;
    forall x
      ensures x in r <==> x in s
    {
      assert x in r <==> x in multiset(r);
      assert x in s <==> x in multiset(s);
    }
  }

  lemma RepeatCountsTwice<T>(s: seq<T>, i: nat, j: nat)
    requires i < j < |s| && s[i] == s[j]
    ensures multiset(s)[s[i]] >= 2
  {
    assert s == s[..j] + [s[j]] + s[j + 1..];
    assert s[i] in s[..j];
  }

  lemma {:induction false} DistinctCountsOnce<T>(s: seq<T>, x: T)
    requires forall i, j :: 0 <= i < j < |s| ==> s[i] != s[j]
    ensures multiset(s)[x] <= 1
  {
    if s != [] {
      assert s == [s[0]] + s[1..];
      DistinctCountsOnce(s[1..], x);
      if s[0] == x {
        assert x !in s[1..];
      }
    }
  }

  // ----- sorted sets of text -----

  ghost predicate Increasing(s: seq<string>) {
    forall i, j :: 0 <= i < j < |s| ==> TextLess(s[i], s[j])
  }

  ghost function Members<T>(s: seq<T>): set<T> {
    set x | x in s
  }

  lemma {:induction false} MembersSize<T>(s: seq<T>)
    ensures |Members(s)| <= |s|
    ensures (forall i, j :: 0 <= i < j < |s| ==> s[i] != s[j]) ==> |Members(s)| == |s|
  {
    if s != [] {
      MembersSize(s[1..]);
      assert s == [s[0]] + s[1..];
      assert Members(s) == {s[0]} + Members(s[1..]);
    }
  }

  lemma Regroup<T>(a: seq<T>, b: seq<T>, c: seq<T>)
    ensures a + (b + c) == (a + b) + c
  {
  }

  function Min(a: int, b: int): int { if a < b then a else b }
  function Max(a: int, b: int): int { if a > b then a else b }

  lemma HasMemberUnlessEmpty<T>(s: seq<T>)
    ensures s == [] || exists x :: x in s
  {
    if s != [] {
      assert s[0] in s;
    }
  }

  lemma HasIntUnlessEmpty(s: set<int>)
    ensures s == {} || exists x :: x in s
  {
    assert (forall x: int :: x !in s) ==> s == {};
  }

  /** Two increasing lists with the same members are the same list. */
  lemma {:induction false} IncreasingUnique(a: seq<string>, b: seq<string>)
    requires Increasing(a) && Increasing(b)
    requires forall x :: x in a <==> x in b
    ensures a == b
  {
    if a == [] {
      HasMemberUnlessEmpty(b);
    } else {
      assert a[0] in b;
      var i :| 0 <= i < |b| && b[i] == a[0];
      assert b[0] in a;
      var j :| 0 <= j < |a| && a[j] == b[0];
      TextTrichotomy(a[0], b[0]);
      assert i == 0;
      assert forall k :: 1 <= k < |a| ==> a[k] != a[0] by {
        forall k | 1 <= k < |a| ensures a[k] != a[0] { TextTrichotomy(a[0], a[k]); }
      }
      assert forall k :: 1 <= k < |b| ==> b[k] != b[0] by {
        forall k | 1 <= k < |b| ensures b[k] != b[0] { TextTrichotomy(b[0], b[k]); }
      }
      forall x
        ensures x in a[1..] <==> x in b[1..]
      {
        assert x in a[1..] <==> x in a && x != a[0];
        assert x in b[1..] <==> x in b && x != b[0];
      }
      IncreasingUnique(a[1..], b[1..]);
      assert a == [a[0]] + a[1..] && b == [b[0]] + b[1..];
    }
  }
}
