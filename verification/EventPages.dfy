/** `QueryPage` over the raw events (internal/eventstore/query.go): a snapshot id and the last id seen. */
module EventPages {
  import opened Options

  datatype Event = Event(id: nat, body: string)

  datatype Cursor = Cursor(version: int, snapshotId: int, lastId: int)

  datatype PageResult = Page(snapshotId: int, events: seq<Event>, next: Option<Cursor>) | LimitInvalid | CursorInvalid

  /** What `decodeCursor` lets through. */
  predicate ValidCursor(c: Cursor) {
    c.version == 1 && 0 <= c.lastId <= c.snapshotId
  }

  function MaxId(rows: seq<Event>): nat {
    if rows == [] then 0 else rows[|rows| - 1].id
  }

  /** Every row's id is above the ids before it. */
  ghost predicate IdOrder(rows: seq<Event>) {
    rows == [] || (IdOrder(rows[..|rows| - 1]) && MaxId(rows[..|rows| - 1]) < MaxId(rows))
  }

  ghost predicate AllUpTo(rows: seq<Event>, bound: int) {
    forall i :: 0 <= i < |rows| ==> rows[i].id <= bound
  }

  ghost predicate AllAbove(rows: seq<Event>, bound: int) {
    forall i :: 0 <= i < |rows| ==> rows[i].id > bound
  }

  lemma {:induction false} OrderBounds(rows: seq<Event>)
    requires IdOrder(rows)
    ensures AllUpTo(rows, MaxId(rows)) && AllAbove(rows, 0)
  {
    if rows != [] {
      OrderBounds(rows[..|rows| - 1]);
    }
  }

  /** The rows after `last` that belong to the snapshot. */
  function Remaining(rows: seq<Event>, last: int, snapshot: int): (r: seq<Event>)
    ensures |r| <= |rows|
    ensures AllAbove(r, last) && AllUpTo(r, snapshot)
  {
    if rows == [] then []
    else
      var n := |rows| - 1;
      var earlier := Remaining(rows[..n], last, snapshot);
      if last < rows[n].id <= snapshot then earlier + [rows[n]] else earlier
  }

  lemma {:induction false} NewerRowsStayOut(rows: seq<Event>, more: seq<Event>, last: int, snapshot: int)
    requires AllAbove(more, snapshot)
    ensures Remaining(rows + more, last, snapshot) == Remaining(rows, last, snapshot)
  {
    if more == [] {
      assert rows + more == rows;
    } else {
      assert (rows + more)[..|rows + more| - 1] == rows + more[..|more| - 1];
      NewerRowsStayOut(rows, more[..|more| - 1], last, snapshot);
    }
  }

  lemma {:induction false} NothingBeyond(rows: seq<Event>, last: int, snapshot: int)
    requires AllUpTo(rows, last)
    ensures Remaining(rows, last, snapshot) == []
  {
    if rows != [] {
      NothingBeyond(rows[..|rows| - 1], last, snapshot);
    }
  }

  /** Continuing after the n-th remaining row leaves exactly the rest. */
  lemma {:induction false} RemainingAfter(rows: seq<Event>, last: int, snapshot: int, n: nat)
    requires IdOrder(rows) && 0 < n <= |Remaining(rows, last, snapshot)|
    ensures var all := Remaining(rows, last, snapshot);
            Remaining(rows, all[n - 1].id, snapshot) == all[n..] && last < all[n - 1].id <= MaxId(rows)
  {
    var all := Remaining(rows, last, snapshot);
    var m := |rows| - 1;
    var earlier := Remaining(rows[..m], last, snapshot);
    if n <= |earlier| {
      RemainingAfter(rows[..m], last, snapshot, n);
    } else {
      OrderBounds(rows[..m]);
      NothingBeyond(rows[..m], rows[m].id, snapshot);
    }
  }

  lemma {:induction false} AllRemain(rows: seq<Event>, snapshot: int)
    requires AllAbove(rows, 0) && AllUpTo(rows, snapshot)
    ensures Remaining(rows, 0, snapshot) == rows
  {
    if rows != [] {
      AllRemain(rows[..|rows| - 1], snapshot);
    }
  }

  /** From the start, the snapshot's rows are all the rows there are. */
  lemma WholeSnapshot(rows: seq<Event>)
    requires IdOrder(rows)
    ensures Remaining(rows, 0, MaxId(rows)) == rows
  {
    OrderBounds(rows);
    AllRemain(rows, MaxId(rows));
  }

  lemma {:induction false} LongerKeepsAbove(rows: seq<Event>, more: seq<Event>)
    requires IdOrder(rows + more)
    ensures IdOrder(rows) && AllAbove(more, MaxId(rows)) && MaxId(rows) <= MaxId(rows + more)
  {
    if more == [] {
      assert rows + more == rows;
    } else {
      var n := |more| - 1;
      assert (rows + more)[..|rows + more| - 1] == rows + more[..n];
      LongerKeepsAbove(rows, more[..n]);
    }
  }

  function FirstOf(s: seq<Event>, n: nat): seq<Event> {
    if |s| <= n then s else s[..n]
  }

  class Store {
    var rows: seq<Event>
    const maxPageSize: nat

    ghost predicate Valid()
      reads this
    {
      IdOrder(rows)
    }

    constructor (maximum: nat)
      ensures Valid() && rows == [] && maxPageSize == maximum
    {
      rows, maxPageSize := [], maximum;
    }

    method Append(bodies: seq<string>)
      requires Valid()
      modifies this
      ensures Valid() && old(rows) <= rows
    {
      for k := 0 to |bodies|
        invariant Valid() && old(rows) <= rows
      {
        ghost var before := rows;
        rows := rows + [Event(MaxId(rows) + 1, bodies[k])];
        assert rows[..|rows| - 1] == before;
      }
    }

    /** WHERE id > last AND id <= snapshot ORDER BY id LIMIT n, in the order of the rows. */
    method Select(from: Cursor, n: nat) returns (events: seq<Event>)
      ensures events == FirstOf(Remaining(rows, from.lastId, from.snapshotId), n)
    {
      events := [];
      for k := 0 to |rows|
        invariant events == FirstOf(Remaining(rows[..k], from.lastId, from.snapshotId), n)
      {
        assert rows[..k + 1][..k] == rows[..k];
        if from.lastId < rows[k].id <= from.snapshotId && |events| < n {
          events := events + [rows[k]];
        }
      }
      assert rows[..|rows|] == rows;
    }

    /** One page: at most `limit` of the remaining rows, with a cursor if and only if more remain. */
    method QueryPage(cursor: Option<Cursor>, limit: int) returns (r: PageResult)
      requires Valid()
      ensures r.LimitInvalid? <==> limit < 1 || limit > maxPageSize
      ensures r.CursorInvalid? <==> !r.LimitInvalid? && cursor.Some? && !ValidCursor(cursor.value)
      ensures r.Page? ==>
                var from := if cursor.Some? then cursor.value else Cursor(1, MaxId(rows), 0);
                var all := Remaining(rows, from.lastId, from.snapshotId);
                && r.snapshotId == from.snapshotId
                && r.events == FirstOf(all, limit)
                && r.next == (if |all| <= limit then None else Some(Cursor(1, from.snapshotId, all[limit - 1].id)))
    {
      if limit < 1 || limit > maxPageSize { return LimitInvalid; }
      if cursor.Some? && !ValidCursor(cursor.value) { return CursorInvalid; }
      var from := if cursor.Some? then cursor.value else Cursor(1, MaxId(rows), 0);
      var events := Select(from, limit + 1);
      var next: Option<Cursor> := None;
      if |events| > limit {
        events := events[..limit];
        next := Some(Cursor(1, from.snapshotId, events[|events| - 1].id));
      }
      r := Page(from.snapshotId, events, next);
    }
  }

  /**
   Following cursors from an empty one, with any appends between pages: every row of the snapshot once, in id order,
   and nothing newer. The walk ends.
   */
  method Walk(store: Store, limit: int, arrivals: seq<seq<string>>) returns (collected: seq<Event>)
    requires store.Valid() && 1 <= limit <= store.maxPageSize
    modifies store
    ensures store.Valid() && collected == old(store.rows)
  {
    ghost var start := store.rows;
    WholeSnapshot(start);
    var first := store.QueryPage(None, limit);
    collected := first.events;
    var cursor := first.next;
    OrderBounds(start);
    var k := 0;
    while cursor.Some?
      invariant store.Valid() && start <= store.rows
      invariant collected <= start
      invariant cursor == None ==> collected == start
      invariant cursor.Some? ==>
                  0 < |collected| < |start| && cursor.value == CursorAt(start, |collected|) && ValidCursor(cursor.value)
      decreases |start| - |collected|
    {
      if k < |arrivals| {
        store.Append(arrivals[k]);
        k := k + 1;
      }
      collected, cursor := NextPage(store, cursor.value, limit, collected, start);
    }
  }

  ghost function CursorAt(start: seq<Event>, n: nat): Cursor
    requires 0 < n <= |start|
  {
    Cursor(1, MaxId(start), start[n - 1].id)
  }

  /** One request of the walk. */
  method NextPage(store: Store, cursor: Cursor, limit: int, collected: seq<Event>, ghost start: seq<Event>)
    returns (more: seq<Event>, next: Option<Cursor>)
    requires store.Valid() && start <= store.rows && 1 <= limit <= store.maxPageSize
    requires 0 < |collected| < |start| && collected <= start && cursor == CursorAt(start, |collected|)
             && ValidCursor(cursor)
    ensures collected < more <= start
    ensures if next.Some? then |more| < |start| && next.value == CursorAt(start, |more|) && ValidCursor(next.value)
              else more == start
  {
    RestOfSnapshot(start, store.rows, |collected|);
    var page := store.QueryPage(Some(cursor), limit);
    more := collected + page.events;
    next := page.next;
    RestContinues(start, |collected|, |page.events|);
  }

  /** The next `m` of the rest continue the collected rows. */
  lemma {:induction false} RestContinues(start: seq<Event>, n: nat, m: nat)
    requires IdOrder(start) && 0 < n <= |start| && m <= |start| - n
    ensures start[..n] + start[n..][..m] == start[..n + m]
    ensures m > 0 ==> start[n..][m - 1] == start[n + m - 1] && ValidCursor(CursorAt(start, n + m))
  {
    OrderBounds(start);
  }

  lemma RestOfSnapshot(start: seq<Event>, rows: seq<Event>, n: nat)
    requires IdOrder(rows) && start <= rows && 0 < n <= |start|
    ensures IdOrder(start) && Remaining(rows, start[n - 1].id, MaxId(start)) == start[n..]
  {
    var more := rows[|start|..];
    assert rows == start + more;
    LongerKeepsAbove(start, more);
    WholeSnapshot(start);
    RemainingAfter(start, 0, MaxId(start), n);
    NewerRowsStayOut(start, more, start[n - 1].id, MaxId(start));
  }
}
