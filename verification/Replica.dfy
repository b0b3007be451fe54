/** A keyed table kept in step with another by operations on single keys. */
module Replica {
  datatype Operation<K, V> = Put(key: K, value: V) | Remove(key: K)

  function Perform<K, V>(table: map<K, V>, op: Operation<K, V>): map<K, V> {
    if op.Put? then table[op.key := op.value] else table - {op.key}
  }

  function PerformAll<K, V>(table: map<K, V>, ops: seq<Operation<K, V>>): map<K, V>
    decreases |ops|
  {
    if ops == [] then table else PerformAll(Perform(table, ops[0]), ops[1..])
  }

  ghost predicate DistinctKeys<K, V>(ops: seq<Operation<K, V>>) {
    forall i, j | 0 <= i < j < |ops| :: ops[i].key != ops[j].key
  }

  /** The only operation on a key has its effect. */
  lemma {:induction false} PerformAt<K, V>(table: map<K, V>, ops: seq<Operation<K, V>>, op: Operation<K, V>)
    requires DistinctKeys(ops) && op in ops
    ensures
      var after := PerformAll(table, ops);
      match op
      case Put(key, value) => key in after && after[key] == value
      case Remove(key) => key !in after
    decreases |ops|
  {
    if op == ops[0] {
      PerformElsewhere(Perform(table, op), ops[1..], op.key);
    } else {
      PerformAt(Perform(table, ops[0]), ops[1..], op);
    }
  }

  /** The other keys stay as they are. */
  lemma {:induction false} PerformElsewhere<K, V>(table: map<K, V>, ops: seq<Operation<K, V>>, key: K)
    requires forall op | op in ops :: op.key != key
    ensures
      var after := PerformAll(table, ops);
      && (key in after <==> key in table)
      && (key in table ==> after[key] == table[key])
    decreases |ops|
  {
    if ops != [] {
      assert ops[0] in ops;
      PerformElsewhere(Perform(table, ops[0]), ops[1..], key);
    }
  }

  /** Operations on different keys may be carried out in any order. */
  lemma AnyOrder<K, V>(table: map<K, V>, ops: seq<Operation<K, V>>, other: seq<Operation<K, V>>)
    requires DistinctKeys(ops) && DistinctKeys(other)
    requires forall op :: op in ops <==> op in other
    ensures PerformAll(table, ops) == PerformAll(table, other)
  {
    var x, y := PerformAll(table, ops), PerformAll(table, other);
    forall key | key in x ensures key in y && x[key] == y[key] { SameResult(table, ops, other, key); }
    forall key | key in y ensures key in x { SameResult(table, ops, other, key); }
    assert x.Keys == y.Keys;
  }

  lemma SameResult<K, V>(table: map<K, V>, ops: seq<Operation<K, V>>, other: seq<Operation<K, V>>, key: K)
    requires DistinctKeys(ops) && DistinctKeys(other)
    requires forall op :: op in ops <==> op in other
    ensures
      var x, y := PerformAll(table, ops), PerformAll(table, other);
      (key in x <==> key in y) && (key in x ==> x[key] == y[key])
  {
    if op :| op in ops && op.key == key {
      PerformAt(table, ops, op);
      PerformAt(table, other, op);
    } else {
      PerformElsewhere(table, ops, key);
      PerformElsewhere(table, other, key);
    }
  }

  // Reports: what is new, what has changed, and what is gone.

  ghost function Created<K, V>(before: map<K, V>, after: map<K, V>): set<K> { after.Keys - before.Keys }

  ghost function Deleted<K, V>(before: map<K, V>, after: map<K, V>): set<K> { before.Keys - after.Keys }

  ghost function Changed<K, V>(before: map<K, V>, after: map<K, V>): set<K> {
    set key | key in before && key in after && before[key] != after[key]
  }

  /** `pairs` lists the part of `table` with these keys, each once, in some order. */
  ghost predicate Lists<K, V>(pairs: seq<(K, V)>, table: map<K, V>, keys: set<K>) {
    && (forall i, j | 0 <= i < j < |pairs| :: pairs[i].0 != pairs[j].0)
    && (forall i | 0 <= i < |pairs| :: pairs[i].0 in keys && pairs[i].0 in table && table[pairs[i].0] == pairs[i].1)
    && (forall key | key in keys :: key in table && (key, table[key]) in pairs)
  }

  ghost predicate ListsKeys<K>(list: seq<K>, keys: set<K>) {
    && (forall i, j | 0 <= i < j < |list| :: list[i] != list[j])
    && (forall i | 0 <= i < |list| :: list[i] in keys)
    && (forall key | key in keys :: key in list)
  }

  function Puts<K, V>(pairs: seq<(K, V)>): seq<Operation<K, V>> {
    seq(|pairs|, i requires 0 <= i < |pairs| => Put(pairs[i].0, pairs[i].1))
  }

  function Removes<K, V>(list: seq<K>): seq<Operation<K, V>> {
    seq(|list|, i requires 0 <= i < |list| => Remove(list[i]))
  }

  function Operations<K, V>(creates: seq<(K, V)>, updates: seq<(K, V)>, deletes: seq<K>): seq<Operation<K, V>> {
    Puts(creates) + Puts(updates) + Removes(deletes)
  }

  /** The lists say exactly what has to be done to get from `before` to `after`, where `changed` keys count as changed. */
  ghost predicate Reports<K, V>(creates: seq<(K, V)>, updates: seq<(K, V)>, deletes: seq<K>,
                                before: map<K, V>, after: map<K, V>, changed: set<K>) {
    && Lists(creates, after, Created(before, after))
    && Lists(updates, after, changed)
    && ListsKeys(deletes, Deleted(before, after))
  }

  lemma ListsPairs<K, V>(pairs: seq<(K, V)>, table: map<K, V>, keys: set<K>)
    requires Lists(pairs, table, keys)
    ensures forall key, value :: (key, value) in pairs <==> key in keys && key in table && value == table[key]
  {
  }

  /** A report in plain terms: what is in each of its lists. */
  lemma ReportTells<K, V>(creates: seq<(K, V)>, updates: seq<(K, V)>, deletes: seq<K>,
                          before: map<K, V>, after: map<K, V>, changed: set<K>)
    requires Reports(creates, updates, deletes, before, after, changed)
    ensures forall key, value :: (key, value) in creates <==> key !in before && key in after && value == after[key]
    ensures forall key, value :: (key, value) in updates <==> key in changed && key in after && value == after[key]
    ensures forall key :: key in deletes <==> key in before && key !in after
  {
    ListsPairs(creates, after, Created(before, after));
    ListsPairs(updates, after, changed);
    hide Lists;
  }

  lemma ReportKeys<K, V>(creates: seq<(K, V)>, updates: seq<(K, V)>, deletes: seq<K>,
                         before: map<K, V>, after: map<K, V>, changed: set<K>)
    requires Reports(creates, updates, deletes, before, after, changed)
    requires forall key | key in changed :: key in before && key in after
    ensures
      var ops := Operations(creates, updates, deletes);
      && DistinctKeys(ops)
      && (forall op | op in ops :: op.key in Created(before, after) || op.key in changed || op.key in Deleted(before, after))
  {
    var ops, a, u := Operations(creates, updates, deletes), |creates|, |updates|;
    forall i | 0 <= i < |ops|
      ensures
        if i < a then ops[i].key in Created(before, after)
        else if i < a + u then ops[i].key in changed
        else ops[i].key in Deleted(before, after)
    {
    }
  }

  lemma PutMember<K, V>(pairs: seq<(K, V)>, key: K, value: V)
    requires (key, value) in pairs
    ensures Put(key, value) in Puts(pairs)
  {
    var i :| 0 <= i < |pairs| && pairs[i] == (key, value);
    assert Puts(pairs)[i] == Put(key, value);
  }

  lemma RemoveMember<K, V>(list: seq<K>, key: K)
    requires key in list
    ensures Remove(key) in Removes<K, V>(list)
  {
    var i :| 0 <= i < |list| && list[i] == key;
    assert Removes<K, V>(list)[i] == Remove(key);
  }

  /** What a report does to a server's table, key by key. */
  lemma ReportAt<K, V>(server: map<K, V>, creates: seq<(K, V)>, updates: seq<(K, V)>, deletes: seq<K>,
                       before: map<K, V>, after: map<K, V>, changed: set<K>, key: K)
    requires Reports(creates, updates, deletes, before, after, changed)
    requires forall k | k in changed :: k in before && k in after
    ensures
      var mirror := PerformAll(server, Operations(creates, updates, deletes));
      if key in Created(before, after) || key in changed then key in mirror && mirror[key] == after[key]
      else if key in Deleted(before, after) then key !in mirror
      else (key in mirror <==> key in server) && (key in server ==> mirror[key] == server[key])
  {
    var ops := Operations(creates, updates, deletes);
    ReportKeys(creates, updates, deletes, before, after, changed);
    if key in Created(before, after) {
      PutMember(creates, key, after[key]);
      PerformAt(server, ops, Put(key, after[key]));
    } else if key in changed {
      PutMember(updates, key, after[key]);
      PerformAt(server, ops, Put(key, after[key]));
    } else if key in Deleted(before, after) {
      RemoveMember<K, V>(deletes, key);
      PerformAt(server, ops, Remove(key));
    } else {
      PerformElsewhere(server, ops, key);
    }
  }

  /** A report in which every difference counts makes a table that was up to date the new table. */
  lemma ReportCarries<K, V>(creates: seq<(K, V)>, updates: seq<(K, V)>, deletes: seq<K>, before: map<K, V>, after: map<K, V>)
    requires Reports(creates, updates, deletes, before, after, Changed(before, after))
    ensures PerformAll(before, Operations(creates, updates, deletes)) == after
  {
    var mirror := PerformAll(before, Operations(creates, updates, deletes));
    forall key | key in mirror ensures key in after && mirror[key] == after[key] {
      ReportAt(before, creates, updates, deletes, before, after, Changed(before, after), key);
    }
    forall key | key in after ensures key in mirror {
      ReportAt(before, creates, updates, deletes, before, after, Changed(before, after), key);
    }
    assert mirror.Keys == after.Keys;
  }

  /** The report says what becomes of this key. */
  ghost predicate Mentions<K, V>(before: map<K, V>, after: map<K, V>, changed: set<K>, key: K) {
    key in Created(before, after) || key in changed || key in Deleted(before, after)
  }

  ghost predicate SameAt<K, V>(a: map<K, V>, b: map<K, V>, key: K) {
    (key in a <==> key in b) && (key in a ==> a[key] == b[key])
  }

  /**
   A mirror that has missed earlier reports is put right by the next one exactly where that
   report says something, or the mirror was right already.
   */
  lemma ReportOnStale<K, V>(stale: map<K, V>, creates: seq<(K, V)>, updates: seq<(K, V)>, deletes: seq<K>,
                            before: map<K, V>, after: map<K, V>)
    requires Reports(creates, updates, deletes, before, after, Changed(before, after))
    ensures PerformAll(stale, Operations(creates, updates, deletes)) == after
       <==> forall key :: Mentions(before, after, Changed(before, after), key) || SameAt(stale, after, key)
  {
    hide PerformAll, Operations, Changed, Mentions;
    var mirror := PerformAll(stale, Operations(creates, updates, deletes));
    forall key ensures SameAt(mirror, after, key) <==>
      Mentions(before, after, Changed(before, after), key) || SameAt(stale, after, key)
    {
      ReportOnStaleAt(stale, creates, updates, deletes, before, after, key);
    }
    SameEverywhere(mirror, after);
  }

  lemma ReportOnStaleAt<K, V>(stale: map<K, V>, creates: seq<(K, V)>, updates: seq<(K, V)>, deletes: seq<K>,
                              before: map<K, V>, after: map<K, V>, key: K)
    requires Reports(creates, updates, deletes, before, after, Changed(before, after))
    ensures SameAt(PerformAll(stale, Operations(creates, updates, deletes)), after, key)
       <==> Mentions(before, after, Changed(before, after), key) || SameAt(stale, after, key)
  {
    hide PerformAll, Operations, Reports;
    ReportAt(stale, creates, updates, deletes, before, after, Changed(before, after), key);
  }

  lemma SameEverywhere<K, V>(a: map<K, V>, b: map<K, V>)
    ensures a == b <==> forall key :: SameAt(a, b, key)
  {
    if forall key :: SameAt(a, b, key) {
      assert a.Keys == b.Keys by {
        forall key | key in a ensures key in b { assert SameAt(a, b, key); }
        forall key | key in b ensures key in a { assert SameAt(a, b, key); }
      }
      forall key | key in a ensures a[key] == b[key] { assert SameAt(a, b, key); }
    }
  }

  lemma ListsOneMore<K, V>(pairs: seq<(K, V)>, table: map<K, V>, keys: set<K>, key: K)
    requires Lists(pairs, table, keys) && key !in keys && key in table
    ensures Lists(pairs + [(key, table[key])], table, keys + {key})
  {
    var longer := pairs + [(key, table[key])];
    assert longer[|pairs|] == (key, table[key]);
    forall k | k in keys + {key} ensures k in table && (k, table[k]) in longer {
      if k in keys { assert (k, table[k]) in pairs; }
    }
  }

  /** A report that is not empty is about tables that differ. */
  lemma ReportedDiffers<K, V>(creates: seq<(K, V)>, updates: seq<(K, V)>, deletes: seq<K>, before: map<K, V>, after: map<K, V>)
    requires Reports(creates, updates, deletes, before, after, Changed(before, after))
    requires creates != [] || updates != [] || deletes != []
    ensures before != after
  {
    if creates != [] {
      assert creates[0].0 in Created(before, after);
    } else if updates != [] {
      assert updates[0].0 in Changed(before, after);
    } else {
      assert deletes[0] in Deleted(before, after);
    }
  }
}
