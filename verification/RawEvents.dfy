/**
 The append-only `raw_events` table and `AppendBatch` (internal/eventstore/event.go).
 A row's id is its position in the table, counted from one: rows are never updated or deleted.
 The content hash is modelled as the content itself.
 */
module RawEvents {

  import opened Options
  import opened Ordering

  /** A candidate after validation: rejected with a code, or an item to insert. */
  datatype Prepared<K, C> = Invalid(code: string) | Ready(key: K, content: C)

  datatype Row<K, C> = Row(key: K, content: C, receivedAt: int)

  datatype Outcome = Accepted(id: nat) | Duplicate(id: nat) | Conflict(id: nat) | Rejected(code: string)

  datatype WriteResult = WriteResult(index: nat, outcome: Outcome)

  datatype BatchError = BatchEmpty | BatchTooLarge | WriteFailed
  datatype BatchResult = Results(results: seq<WriteResult>) | Failed(error: BatchError)

  /** Where the database gives up during one call, if it does. */
  datatype Fault = NoFault | BeginFails | InsertFails(at: nat) | CommitFails

  ghost predicate UniqueKeys<K, C>(rows: seq<Row<K, C>>) {
    forall i, j {:trigger SameKey(rows, i, j)} :: 0 <= i < j < |rows| ==> !SameKey(rows, i, j)
  }

  ghost predicate SameKey<K, C>(rows: seq<Row<K, C>>, i: nat, j: nat)
    requires i < |rows| && j < |rows|
  {
    rows[i].key == rows[j].key
  }

  /** The unique index on (collector, idempotency key): where a key is stored. */
  function Lookup<K(==), C>(rows: seq<Row<K, C>>, key: K): (r: Option<nat>)
    ensures r.Some? ==> r.value < |rows| && rows[r.value].key == key
    ensures r.None? ==> forall i :: 0 <= i < |rows| ==> rows[i].key != key
  {
    if |rows| == 0 then None
    else if rows[|rows| - 1].key == key then Some(|rows| - 1)
    else Lookup(rows[..|rows| - 1], key)
  }

  datatype Appended<K, C> = Appended(rows: seq<Row<K, C>>, outcomes: seq<Outcome>)

  function AppendOne<K(==), C(==)>(
      rows: seq<Row<K, C>>, item: Prepared<K, C>, receivedAt: int): (seq<Row<K, C>>, Outcome)
  {
    match item
    case Invalid(code) => (rows, Rejected(code))
    case Ready(key, content) =>
      match Lookup(rows, key)
      case None => (rows + [Row(key, content, receivedAt)], Accepted(|rows| + 1))
      case Some(i) => (rows, if rows[i].content == content then Duplicate(i + 1) else Conflict(i + 1))
  }

  /** The effect of a whole batch on the table, in order. */
  function AppendAll<K(==), C(==)>(
      rows: seq<Row<K, C>>, items: seq<Prepared<K, C>>, receivedAt: int): (r: Appended<K, C>)
    ensures |r.outcomes| == |items|
    ensures rows <= r.rows
  {
    if |items| == 0 then Appended(rows, [])
    else
      var before := AppendAll(rows, items[..|items| - 1], receivedAt);
      var (after, outcome) := AppendOne(before.rows, items[|items| - 1], receivedAt);
      Appended(after, before.outcomes + [outcome])
  }

  // ----- what the outcomes mean -----

  /** With unique keys a key is stored in one place, so it stays found there however the table grows. */
  lemma LookupStable<K, C>(rows: seq<Row<K, C>>, i: nat)
    requires UniqueKeys(rows) && i < |rows|
    ensures Lookup(rows, rows[i].key) == Some(i)
  {
    match Lookup(rows, rows[i].key)
    case Some(j) => assert !(i < j && SameKey(rows, i, j)) && !(j < i && SameKey(rows, j, i));
  }

  lemma AppendOneKeepsUnique<K, C>(rows: seq<Row<K, C>>, item: Prepared<K, C>, receivedAt: int)
    requires UniqueKeys(rows)
    ensures UniqueKeys(AppendOne(rows, item, receivedAt).0)
  {
    var after := AppendOne(rows, item, receivedAt).0;
    forall i, j | 0 <= i < j < |after|
      ensures !SameKey(after, i, j)
    {
      assert j < |rows| ==> !SameKey(rows, i, j);
    }
  }

  lemma {:induction false} AppendKeepsUnique<K, C>(rows: seq<Row<K, C>>, items: seq<Prepared<K, C>>, receivedAt: int)
    requires UniqueKeys(rows)
    ensures UniqueKeys(AppendAll(rows, items, receivedAt).rows)
  {
    if |items| > 0 {
      AppendKeepsUnique(rows, items[..|items| - 1], receivedAt);
      AppendOneKeepsUnique(AppendAll(rows, items[..|items| - 1], receivedAt).rows, items[|items| - 1], receivedAt);
    }
  }

  /** Every outcome names a row with the item's key; its content is the item's unless there is a conflict. */
  ghost predicate Describes<K, C>(rows: seq<Row<K, C>>, item: Prepared<K, C>, outcome: Outcome) {
    match item
    case Invalid(code) => outcome == Rejected(code)
    case Ready(key, content) =>
      && !outcome.Rejected?
      && 1 <= outcome.id <= |rows|
      && rows[outcome.id - 1].key == key
      && (outcome.Conflict? <==> rows[outcome.id - 1].content != content)
  }

  lemma {:induction false} OutcomesDescribe<K, C>(
      rows: seq<Row<K, C>>, items: seq<Prepared<K, C>>, receivedAt: int, k: nat)
    requires k < |items|
    ensures Describes(AppendAll(rows, items, receivedAt).rows, items[k], AppendAll(rows, items, receivedAt).outcomes[k])
    ensures AppendAll(rows, items, receivedAt).outcomes[k].Accepted? ==>
              AppendAll(rows, items, receivedAt).outcomes[k].id > |rows|
  {
    var n := |items| - 1;
    if k < n {
      OutcomesDescribe(rows, items[..n], receivedAt, k);
    }
  }

  /** The row says what some valid item of the batch says. */
  ghost predicate FromItem<K, C>(row: Row<K, C>, items: seq<Prepared<K, C>>) {
    exists k :: 0 <= k < |items| && items[k] == Ready(row.key, row.content)
  }

  /** A batch adds rows of its own items only. */
  lemma {:induction false} AppendAddsItems<K, C>(
      rows: seq<Row<K, C>>, items: seq<Prepared<K, C>>, receivedAt: int, i: nat)
    requires |rows| <= i < |AppendAll(rows, items, receivedAt).rows|
    ensures FromItem(AppendAll(rows, items, receivedAt).rows[i], items)
  {
    var n := |items| - 1;
    LastOutcome(rows, items, receivedAt);
    var before := AppendAll(rows, items[..n], receivedAt).rows;
    if i < |before| {
      AppendAddsItems(rows, items[..n], receivedAt, i);
      var k :| 0 <= k < n && items[..n][k] == Ready(before[i].key, before[i].content);
      assert items[k] == items[..n][k];
    } else {
      assert items[n] == Ready(AppendAll(rows, items, receivedAt).rows[i].key,
                               AppendAll(rows, items, receivedAt).rows[i].content);
    }
  }

  /** An item whose key no earlier item of the batch has is answered as if it came alone. */
  lemma {:induction false} OutcomeOfNewKey<K, C>(
      rows: seq<Row<K, C>>, items: seq<Prepared<K, C>>, receivedAt: int, k: nat)
    requires k < |items| && items[k].Ready? && KeyIsNew(items, k, items[k].key)
    ensures var outcome := AppendAll(rows, items, receivedAt).outcomes[k];
            match Lookup(rows, items[k].key)
            case None => outcome.Accepted?
            case Some(i) => outcome == if rows[i].content == items[k].content then Duplicate(i + 1) else Conflict(i + 1)
  {
    var n := |items| - 1;
    LastOutcome(rows, items, receivedAt);
    if k < n {
      OutcomeOfNewKey(rows, items[..n], receivedAt, k);
    } else {
      LookupOfNewKey(rows, items[..n], receivedAt, items[k].key);
    }
  }

  ghost predicate KeyIsNew<K, C>(items: seq<Prepared<K, C>>, n: nat, key: K)
    requires n <= |items|
  {
    forall j :: 0 <= j < n && items[j].Ready? ==> items[j].key != key
  }

  lemma {:induction false} LookupOfNewKey<K, C>(
      rows: seq<Row<K, C>>, items: seq<Prepared<K, C>>, receivedAt: int, key: K)
    requires KeyIsNew(items, |items|, key)
    ensures Lookup(AppendAll(rows, items, receivedAt).rows, key) == Lookup(rows, key)
  {
    if |items| > 0 {
      var n := |items| - 1;
      LookupOfNewKey(rows, items[..n], receivedAt, key);
      LastOutcome(rows, items, receivedAt);
    }
  }

  // ----- replay -----

  function Replayed(outcome: Outcome): Outcome {
    if outcome.Accepted? then Duplicate(outcome.id) else outcome
  }

  lemma ReplayOne<K, C>(
      rows: seq<Row<K, C>>, item: Prepared<K, C>, outcome: Outcome, later: seq<Row<K, C>>, replayedAt: int)
    requires Describes(rows, item, outcome)
    requires rows <= later && UniqueKeys(later)
    ensures AppendOne(later, item, replayedAt) == (later, Replayed(outcome))
  {
    if item.Ready? {
      LookupStable(later, outcome.id - 1);
    }
  }

  /**
   Replaying a batch on any later state of the table adds no row and answers every item with its earlier id:
   accepted has become duplicate, while duplicate, conflict and rejected repeat.
   */
  lemma {:induction false} ReplayAddsNothing<K, C>(
      rows: seq<Row<K, C>>, items: seq<Prepared<K, C>>, receivedAt: int, later: seq<Row<K, C>>, replayedAt: int)
    requires AppendAll(rows, items, receivedAt).rows <= later
    requires UniqueKeys(later)
    ensures AppendAll(later, items, replayedAt).rows == later
    ensures AllReplayed(AppendAll(rows, items, receivedAt).outcomes, AppendAll(later, items, replayedAt).outcomes)
  {
    if |items| > 0 {
      var n := |items| - 1;
      var before, all := AppendAll(rows, items[..n], receivedAt), AppendAll(rows, items, receivedAt);
      assert before.rows <= all.rows;
      ReplayAddsNothing(rows, items[..n], receivedAt, later, replayedAt);
      OutcomesDescribe(rows, items, receivedAt, n);
      ReplayOne(all.rows, items[n], all.outcomes[n], later, replayedAt);
      LastOutcome(rows, items, receivedAt);
      LastOutcome(later, items, replayedAt);
    }
  }

  /** The earlier answers, with accepted turned into duplicate. */
  ghost predicate AllReplayed(earlier: seq<Outcome>, again: seq<Outcome>) {
    |again| == |earlier| && forall k :: 0 <= k < |earlier| ==> again[k] == Replayed(earlier[k])
  }

  /** The last item of a batch is appended to what the others left. */
  lemma {:induction false} LastOutcome<K, C>(rows: seq<Row<K, C>>, items: seq<Prepared<K, C>>, receivedAt: int)
    requires |items| > 0
    ensures var n := |items| - 1;
            var before, after := AppendAll(rows, items[..n], receivedAt), AppendAll(rows, items, receivedAt);
            && after.rows == AppendOne(before.rows, items[n], receivedAt).0
            && after.outcomes == before.outcomes + [AppendOne(before.rows, items[n], receivedAt).1]
  {
  }

  // ----- splitting a batch -----

  /** Two tables that differ at most in received times. */
  ghost predicate SameButReceived<K, C>(a: seq<Row<K, C>>, b: seq<Row<K, C>>) {
    |a| == |b| && forall i :: 0 <= i < |a| ==> a[i].key == b[i].key && a[i].content == b[i].content
  }

  lemma {:induction false} LookupIgnoresReceived<K, C>(a: seq<Row<K, C>>, b: seq<Row<K, C>>, key: K)
    requires SameButReceived(a, b)
    ensures Lookup(a, key) == Lookup(b, key)
  {
    if |a| > 0 && a[|a| - 1].key != key {
      LookupIgnoresReceived(a[..|a| - 1], b[..|b| - 1], key);
    }
  }

  lemma AppendOneIgnoresReceived<K, C>(a: seq<Row<K, C>>, b: seq<Row<K, C>>, item: Prepared<K, C>, t: int, t': int)
    requires SameButReceived(a, b)
    ensures SameButReceived(AppendOne(a, item, t).0, AppendOne(b, item, t').0)
    ensures AppendOne(a, item, t).1 == AppendOne(b, item, t').1
  {
    if item.Ready? {
      LookupIgnoresReceived(a, b, item.key);
    }
  }

  lemma AppendLast<K, C>(rows: seq<Row<K, C>>, items: seq<Prepared<K, C>>, item: Prepared<K, C>, t: int)
    ensures var before, after := AppendAll(rows, items, t), AppendAll(rows, items + [item], t);
            && after.rows == AppendOne(before.rows, item, t).0
            && after.outcomes == before.outcomes + [AppendOne(before.rows, item, t).1]
  {
  }

  /** One call on `xs + ys` leaves the rows, ids and answers of a call on `xs` followed by a call on `ys`. */
  lemma {:induction false} SplitBatch<K, C>(
      rows: seq<Row<K, C>>, xs: seq<Prepared<K, C>>, ys: seq<Prepared<K, C>>, together: int, first: int, second: int)
    ensures SameButReceived(AppendAll(rows, xs + ys, together).rows,
              AppendAll(AppendAll(rows, xs, first).rows, ys, second).rows)
    ensures AppendAll(rows, xs + ys, together).outcomes
         == AppendAll(rows, xs, first).outcomes + AppendAll(AppendAll(rows, xs, first).rows, ys, second).outcomes
    decreases |ys|
  {
    if |ys| == 0 {
      assert xs + ys == xs;
      ReceivedTimeIrrelevant(rows, xs, together, first);
    } else {
      var n := |ys| - 1;
      SplitBatch(rows, xs, ys[..n], together, first, second);
      assert xs + ys == (xs + ys[..n]) + [ys[n]] && ys == ys[..n] + [ys[n]];
      AppendLast(rows, xs + ys[..n], ys[n], together);
      AppendLast(AppendAll(rows, xs, first).rows, ys[..n], ys[n], second);
      Regroup(AppendAll(rows, xs, first).outcomes, AppendAll(AppendAll(rows, xs, first).rows, ys[..n], second).outcomes,
              [AppendOne(AppendAll(AppendAll(rows, xs, first).rows, ys[..n], second).rows, ys[n], second).1]);
      AppendOneIgnoresReceived(
        AppendAll(rows, xs + ys[..n], together).rows,
        AppendAll(AppendAll(rows, xs, first).rows, ys[..n], second).rows, ys[n], together, second);
    }
  }

  lemma {:induction false} ReceivedTimeIrrelevant<K, C>(
      rows: seq<Row<K, C>>, items: seq<Prepared<K, C>>, t: int, t': int)
    ensures SameButReceived(AppendAll(rows, items, t).rows, AppendAll(rows, items, t').rows)
    ensures AppendAll(rows, items, t).outcomes == AppendAll(rows, items, t').outcomes
  {
    if |items| > 0 {
      var n := |items| - 1;
      ReceivedTimeIrrelevant(rows, items[..n], t, t');
      AppendOneIgnoresReceived(AppendAll(rows, items[..n], t).rows, AppendAll(rows, items[..n], t').rows, items[n],
          t, t');
    }
  }

  // ----- the store -----

  class Store<K(==), C(==)> {
    var rows: seq<Row<K, C>>
    const maxBatchEvents: nat

    constructor (maxBatchEvents: nat)
      ensures rows == [] && this.maxBatchEvents == maxBatchEvents
    {
      this.maxBatchEvents := maxBatchEvents;
      rows := [];
    }

    /** One transaction for the whole batch: every valid item is written, or the table is left as it was. */
    method AppendBatch(candidates: seq<Prepared<K, C>>, now: int, fault: Fault) returns (r: BatchResult)
      modifies this`rows
      ensures |candidates| == 0 ==> r == Failed(BatchEmpty)
      ensures |candidates| > maxBatchEvents && |candidates| > 0 ==> r == Failed(BatchTooLarge)
      ensures r.Failed? ==> rows == old(rows)
      ensures r.Results? ==> rows == AppendAll(old(rows), candidates, now).rows
      ensures r.Results? ==>
                && |r.results| == |candidates|
                && forall k :: 0 <= k < |candidates| ==>
                     r.results[k] == WriteResult(k, AppendAll(old(rows), candidates, now).outcomes[k])
      ensures fault == NoFault && 0 < |candidates| <= maxBatchEvents ==> r.Results?
    {
      if |candidates| == 0 {
        return Failed(BatchEmpty);
      }
      if |candidates| > maxBatchEvents {
        return Failed(BatchTooLarge);
      }
      var validCount := 0;
      for i := 0 to |candidates|
        invariant validCount == 0 <==> forall k :: 0 <= k < i ==> candidates[k].Invalid?
        invariant validCount >= 0
      {
        if candidates[i].Ready? {
          validCount := validCount + 1;
        }
      }
      if validCount > 0 && fault == BeginFails {
        return Failed(WriteFailed);
      }
      var results: seq<WriteResult> := [];
      var transaction := rows;
      for index := 0 to |candidates|
        invariant transaction == AppendAll(old(rows), candidates[..index], now).rows
        invariant rows == old(rows)
        invariant |results| == index
        invariant forall k :: 0 <= k < index ==>
                    results[k] == WriteResult(k, AppendAll(old(rows), candidates[..index], now).outcomes[k])
        invariant validCount == 0 ==> transaction == old(rows)
      {
        assert candidates[..index + 1][..index] == candidates[..index];
        if candidates[index].Ready? && fault == InsertFails(index) {
          return Failed(WriteFailed);
        }
        var (after, outcome) := AppendOne(transaction, candidates[index], now);
        transaction := after;
        results := results + [WriteResult(index, outcome)];
      }
      assert candidates[..|candidates|] == candidates;
      if validCount > 0 && fault == CommitFails {
        return Failed(WriteFailed);
      }
      rows := transaction;
      return Results(results);
    }
  }
}
