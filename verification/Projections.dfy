/**
 Status tables derived from append-only logs (internal/eventstore/media.go): one row per key, holding the key's latest
 event. A log row's id is its position, counted from one.
 */
module Projections {

  datatype LogRow<K, V> = LogRow(key: K, value: V)

  datatype Entry<V> = Entry(lastId: nat, value: V)

  /** The id of the last row of `key`; zero when there is none. */
  function Latest<K(==), V>(log: seq<LogRow<K, V>>, key: K): (id: nat)
    ensures id <= |log|
    ensures id > 0 ==> log[id - 1].key == key
    ensures forall i :: id <= i < |log| ==> log[i].key != key
  {
    if |log| == 0 then 0
    else if log[|log| - 1].key == key then |log|
    else Latest(log[..|log| - 1], key)
  }

  function EntryAt<K, V>(log: seq<LogRow<K, V>>, id: nat): Entry<V>
    requires 1 <= id <= |log|
  {
    Entry(id, log[id - 1].value)
  }

  /** The upsert of one event: it wins only over an earlier one. An unknown id selects no row. */
  function Apply<K(==), V>(log: seq<LogRow<K, V>>, table: map<K, Entry<V>>, id: nat): map<K, Entry<V>> {
    if !(1 <= id <= |log|) then table
    else
      var key := log[id - 1].key;
      if key in table && id <= table[key].lastId then table else table[key := EntryAt(log, id)]
  }

  function ApplyAll<K(==), V>(log: seq<LogRow<K, V>>, table: map<K, Entry<V>>, ids: seq<nat>): map<K, Entry<V>> {
    if |ids| == 0 then table else Apply(log, ApplyAll(log, table, ids[..|ids| - 1]), ids[|ids| - 1])
  }

  /** The table rebuilt from the log: every key with its latest event. */
  function Rebuild<K(==), V(==)>(log: seq<LogRow<K, V>>): map<K, Entry<V>> {
    map row | row in log :: row.key := EntryAt(log, Latest(log, row.key))
  }

  /** Every entry shows some event of its own key. */
  ghost predicate Grounded<K, V>(log: seq<LogRow<K, V>>, table: map<K, Entry<V>>) {
    forall key :: key in table ==>
      1 <= table[key].lastId <= |log| && log[table[key].lastId - 1].key == key
          && table[key] == EntryAt(log, table[key].lastId)
  }

  /** The table has seen the event `id`, or a later one of the same key. */
  ghost predicate Seen<K, V>(log: seq<LogRow<K, V>>, table: map<K, Entry<V>>, id: nat)
    requires 1 <= id <= |log|
  {
    log[id - 1].key in table && table[log[id - 1].key].lastId >= id
  }

  lemma {:induction false} ApplyAllGrounded<K, V>(log: seq<LogRow<K, V>>, table: map<K, Entry<V>>, ids: seq<nat>)
    requires Grounded(log, table)
    ensures Grounded(log, ApplyAll(log, table, ids))
  {
    if |ids| > 0 {
      ApplyAllGrounded(log, table, ids[..|ids| - 1]);
    }
  }

  lemma {:induction false} ApplyAllSees<K, V>(log: seq<LogRow<K, V>>, table: map<K, Entry<V>>, ids: seq<nat>, id: nat)
    requires 1 <= id <= |log|
    requires id in ids || Seen(log, table, id)
    ensures Seen(log, ApplyAll(log, table, ids), id)
  {
    if |ids| > 0 {
      var n := |ids| - 1;
      assert ids == ids[..n] + [ids[n]];
      if id in ids[..n] || Seen(log, table, id) {
        ApplyAllSees(log, table, ids[..n], id);
      }
    }
  }

  /** The rebuilt table has the keys of the log, each with its latest event. */
  lemma {:induction false} RebuildAt<K, V>(log: seq<LogRow<K, V>>, key: K)
    ensures key in Rebuild(log) <==> Latest(log, key) > 0
    ensures key in Rebuild(log) ==> Rebuild(log)[key] == EntryAt(log, Latest(log, key))
  {
    if Latest(log, key) > 0 {
      assert log[Latest(log, key) - 1] in log;
    }
  }

  lemma {:induction false} SeenLatestShowsLatest<K, V>(log: seq<LogRow<K, V>>, table: map<K, Entry<V>>, key: K)
    requires Grounded(log, table) && key in table && Latest(log, key) > 0 && Seen(log, table, Latest(log, key))
    ensures table[key] == EntryAt(log, Latest(log, key))
  {
  }

  lemma {:induction false} AgreesAt<K, V>(log: seq<LogRow<K, V>>, table: map<K, Entry<V>>, key: K)
    requires Grounded(log, table) && (Latest(log, key) > 0 ==> Seen(log, table, Latest(log, key)))
    ensures key in table <==> key in Rebuild(log)
    ensures key in table ==> table[key] == Rebuild(log)[key]
  {
    RebuildAt(log, key);
    if key in table {
      SeenLatestShowsLatest(log, table, key);
    }
  }

  lemma {:induction false} EqualMaps<K, V>(a: map<K, V>, b: map<K, V>)
    requires forall key :: key in a <==> key in b
    requires forall key :: key in a ==> a[key] == b[key]
    ensures a == b
  {
  }

  /** A grounded table that has seen each key's latest event is the rebuilt table. */
  lemma {:induction false} SeenLatestIsRebuild<K, V>(log: seq<LogRow<K, V>>, table: map<K, Entry<V>>)
    requires Grounded(log, table)
    requires forall key {:trigger Latest(log, key)} :: Latest(log, key) > 0 ==> Seen(log, table, Latest(log, key))
    ensures table == Rebuild(log)
  {
    forall key
      ensures key in table <==> key in Rebuild(log)
      ensures key in table ==> table[key] == Rebuild(log)[key]
    {
      AgreesAt(log, table, key);
    }
    EqualMaps(table, Rebuild(log));
  }

  /**
   Applying events in any order, any number of times, to any grounded table gives the rebuilt table
   once each key's latest event is among them.
   */
  lemma {:induction false} AnyOrderIsRebuild<K, V>(log: seq<LogRow<K, V>>, table: map<K, Entry<V>>, ids: seq<nat>)
    requires Grounded(log, table)
    requires forall key {:trigger Latest(log, key)} :: Latest(log, key) > 0 ==>
               Latest(log, key) in ids || Seen(log, table, Latest(log, key))
    ensures ApplyAll(log, table, ids) == Rebuild(log)
  {
    ApplyAllGrounded(log, table, ids);
    forall key | Latest(log, key) > 0
      ensures Seen(log, ApplyAll(log, table, ids), Latest(log, key))
    {
      ApplyAllSees(log, table, ids, Latest(log, key));
    }
    SeenLatestIsRebuild(log, ApplyAll(log, table, ids));
  }

  /** A table stays grounded while its log grows. */
  lemma GroundedGrows<K, V>(log: seq<LogRow<K, V>>, more: seq<LogRow<K, V>>, table: map<K, Entry<V>>)
    requires Grounded(log, table) && log <= more
    ensures Grounded(more, table)
  {
  }

  lemma RebuildGrounded<K, V>(log: seq<LogRow<K, V>>)
    ensures Grounded(log, Rebuild(log))
  {
  }

  /** `after` is `log` with at most one more row, and `id` is the last row of its key: the new one if there is one. */
  ghost predicate AppendsOne<K, V>(log: seq<LogRow<K, V>>, after: seq<LogRow<K, V>>, id: nat) {
    && log <= after && |after| <= |log| + 1
    && 1 <= id <= |after| && id == Latest(after, after[id - 1].key)
    && (|after| == |log| + 1 ==> id == |after|)
  }

  /** Applying a just appended event, or a key's latest one again, keeps a rebuilt table the rebuilt table. */
  lemma {:induction false} ApplyKeepsRebuilt<K, V>(log: seq<LogRow<K, V>>, after: seq<LogRow<K, V>>, id: nat)
    requires AppendsOne(log, after, id)
    ensures Apply(after, Rebuild(log), id) == Rebuild(after)
  {
    var table := Rebuild(log);
    RebuildGrounded(log);
    GroundedGrows(log, after, table);
    ApplyGrounded(after, table, id);
    forall key | Latest(after, key) > 0
      ensures Seen(after, Apply(after, table, id), Latest(after, key))
    {
      var last := Latest(after, key);
      if last == id {
        ApplySees(after, table, id, id);
      } else {
        RebuiltHasSeen(log, last);
        ApplySees(after, table, id, last);
      }
    }
    SeenLatestIsRebuild(after, Apply(after, table, id));
  }

  lemma ApplyGrounded<K, V>(log: seq<LogRow<K, V>>, table: map<K, Entry<V>>, id: nat)
    requires Grounded(log, table)
    ensures Grounded(log, Apply(log, table, id))
  {
  }

  lemma ApplySees<K, V>(log: seq<LogRow<K, V>>, table: map<K, Entry<V>>, id: nat, seen: nat)
    requires 1 <= seen <= |log| && (seen == id || Seen(log, table, seen))
    ensures Seen(log, Apply(log, table, id), seen)
  {
  }

  lemma {:induction false} RebuiltHasSeen<K, V>(log: seq<LogRow<K, V>>, id: nat)
    requires 1 <= id <= |log|
    ensures Seen(log, Rebuild(log), id)
  {
  }

  /** One event's step: the table stays grounded before and after the projection, and a current table stays current. */
  lemma ProjectionStep<K, V>(log: seq<LogRow<K, V>>, after: seq<LogRow<K, V>>, table: map<K, Entry<V>>, id: nat)
    requires AppendsOne(log, after, id) && Grounded(log, table)
    ensures Grounded(after, table) && Grounded(after, Apply(after, table, id))
    ensures table == Rebuild(log) ==> Apply(after, table, id) == Rebuild(after)
  {
    GroundedGrows(log, after, table);
    ApplyGrounded(after, table, id);
    if table == Rebuild(log) {
      ApplyKeepsRebuilt(log, after, id);
    }
  }
}
