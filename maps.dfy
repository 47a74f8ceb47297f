/**
 * The two ways the registries fill a dictionary from a sequence of
 * entries: `operator[]` assignment, where a later entry overwrites an
 * earlier one, and `insert`, which never overwrites a key already present.
 */
module Maps {

  /** The map after assigning each entry in order (`m[k] = v`): later entries win. */
  function Upserted<K(==), V>(m: map<K, V>, entries: seq<(K, V)>): map<K, V>
  {
    if entries == [] then m
    else
      var last := entries[|entries| - 1];
      Upserted(m, entries[..|entries| - 1])[last.0 := last.1]
  }

  /** The map after inserting each entry in order (`m.insert({k, v})`): the first entry for a new key wins. */
  function Inserted<K(==), V>(m: map<K, V>, entries: seq<(K, V)>): map<K, V>
  {
    if entries == [] then m
    else
      var last := entries[|entries| - 1];
      var before := Inserted(m, entries[..|entries| - 1]);
      if last.0 in before then before else before[last.0 := last.1]
  }

  /** Whether some entry has key `k`. */
  predicate HasKey<K(==), V>(entries: seq<(K, V)>, k: K)
  {
    exists i :: 0 <= i < |entries| && entries[i].0 == k
  }

  lemma HasKeyOfPrefix<K, V>(entries: seq<(K, V)>, k: K)
    requires entries != []
    ensures HasKey(entries, k) <==> HasKey(entries[..|entries| - 1], k) || entries[|entries| - 1].0 == k
  {
    var init := entries[..|entries| - 1];
    if HasKey(entries, k) && entries[|entries| - 1].0 != k {
      var i :| 0 <= i < |entries| && entries[i].0 == k;
      assert init[i].0 == k;
    }
    if HasKey(init, k) {
      var i :| 0 <= i < |init| && init[i].0 == k;
      assert entries[i].0 == k;
    }
  }

  /** Assignment: the keys afterwards are the old keys and the entries' keys. */
  lemma {:induction false} UpsertedKeys<K, V>(m: map<K, V>, entries: seq<(K, V)>, k: K)
    ensures k in Upserted(m, entries) <==> k in m || HasKey(entries, k)
  {
    if entries != [] {
      UpsertedKeys(m, entries[..|entries| - 1], k);
      HasKeyOfPrefix(entries, k);
    }
  }

  /** Assignment: an entry whose key no later entry repeats sets that key's value. */
  lemma {:induction false} UpsertedLastWins<K, V>(m: map<K, V>, entries: seq<(K, V)>, i: nat)
    requires i < |entries|
    requires forall j :: i < j < |entries| ==> entries[j].0 != entries[i].0
    ensures entries[i].0 in Upserted(m, entries) && Upserted(m, entries)[entries[i].0] == entries[i].1
  {
    var init := entries[..|entries| - 1];
    if i < |init| {
      assert init[i] == entries[i];
      UpsertedLastWins(m, init, i);
    }
  }

  /** Assignment: a key no entry names keeps its value. */
  lemma {:induction false} UpsertedOthers<K, V>(m: map<K, V>, entries: seq<(K, V)>, k: K)
    requires k in m && !HasKey(entries, k)
    ensures k in Upserted(m, entries) && Upserted(m, entries)[k] == m[k]
  {
    if entries != [] {
      HasKeyOfPrefix(entries, k);
      UpsertedOthers(m, entries[..|entries| - 1], k);
    }
  }

  /** Insertion: the keys afterwards are the old keys and the entries' keys. */
  lemma {:induction false} InsertedKeys<K, V>(m: map<K, V>, entries: seq<(K, V)>, k: K)
    ensures k in Inserted(m, entries) <==> k in m || HasKey(entries, k)
  {
    if entries != [] {
      InsertedKeys(m, entries[..|entries| - 1], k);
      HasKeyOfPrefix(entries, k);
    }
  }

  /** Insertion never overwrites: a key already present keeps its value. */
  lemma {:induction false} InsertedKeeps<K, V>(m: map<K, V>, entries: seq<(K, V)>, k: K)
    requires k in m
    ensures k in Inserted(m, entries) && Inserted(m, entries)[k] == m[k]
  {
    if entries != [] {
      InsertedKeeps(m, entries[..|entries| - 1], k);
    }
  }

  /** Insertion: a new key takes the value of its first entry. */
  lemma {:induction false} InsertedFirstWins<K, V>(m: map<K, V>, entries: seq<(K, V)>, i: nat)
    requires i < |entries| && entries[i].0 !in m
    requires forall j :: 0 <= j < i ==> entries[j].0 != entries[i].0
    ensures entries[i].0 in Inserted(m, entries) && Inserted(m, entries)[entries[i].0] == entries[i].1
  {
    var init := entries[..|entries| - 1];
    var k := entries[i].0;
    if i < |init| {
      assert init[i] == entries[i];
      InsertedFirstWins(m, init, i);
    } else {
      forall j | 0 <= j < |init|
        ensures init[j].0 != k
      {
        assert init[j] == entries[j];
      }
      InsertedKeys(m, init, k);
    }
  }
}
