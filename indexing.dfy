/** Secondary indexes of the record stores: maps from a key (a name
    substring, a threat level, a status) to the non-empty set of identifiers
    of the records carrying that key. Both stores build their indexes from
    the operations here: `Tag` and `Untag` are the single-key steps the
    stores perform, `TagAll` and `UntagAll` their effect over a set of keys,
    and `Indexed` the consistency of an index with the stored records. */
module Indexing {
  import opened Records
  import opened Text

  type Index<K> = map<K, set<Id>>

  /** Add `id` to the set under `k`, creating the set when the key is new. */
  function Tag<K>(index: Index<K>, k: K, id: Id): (r: Index<K>)
  {
    index[k := (if k in index then index[k] else {}) + {id}]
  }

  /** Drop `id` from the set under `k`, and the key itself once its set is empty. */
  function Untag<K>(index: Index<K>, k: K, id: Id): (r: Index<K>)
    requires k in index
  {
    var ids := index[k] - {id};
    if ids == {} then index - {k} else index[k := ids]
  }

  /** `id` added under every key of `keys`. */
  function TagAll<K>(index: Index<K>, keys: set<K>, id: Id): Index<K>
  {
    map k | k in index.Keys + keys :: (if k in index then index[k] else {}) + (if k in keys then {id} else {})
  }

  /** `id` removed from under every key of `keys`, keys left empty dropped. */
  function UntagAll<K>(index: Index<K>, keys: set<K>, id: Id): Index<K>
  {
    map k | k in index && (k !in keys || index[k] - {id} != {}) :: if k in keys then index[k] - {id} else index[k]
  }

  /** The index holds exactly the pairs (key, id) with `key in keysOf[id]`,
      and no key maps to an empty set. */
  ghost predicate Indexed<K>(index: Index<K>, keysOf: map<Id, set<K>>) {
    && (forall k :: k in index ==> index[k] != {})
    && (forall k, id :: k in index && id in index[k] ==> id in keysOf && k in keysOf[id])
    && (forall id, k :: id in keysOf && k in keysOf[id] ==> k in index && id in index[k])
  }

  /** Tagging one more key is one more step of `TagAll`. */
  lemma TagStep<K>(index: Index<K>, done: set<K>, k: K, id: Id)
    ensures Tag(TagAll(index, done, id), k, id) == TagAll(index, done + {k}, id)
  {
    var left, right := Tag(TagAll(index, done, id), k, id), TagAll(index, done + {k}, id);
    assert left.Keys == right.Keys;
    forall x | x in left ensures left[x] == right[x] {}
  }

  /** Untagging one more key is one more step of `UntagAll`; a key that is
      already gone needs no step. */
  lemma UntagStep<K>(index: Index<K>, done: set<K>, k: K, id: Id)
    ensures k in UntagAll(index, done, id) ==>
              Untag(UntagAll(index, done, id), k, id) == UntagAll(index, done + {k}, id)
    ensures k !in UntagAll(index, done, id) ==> UntagAll(index, done, id) == UntagAll(index, done + {k}, id)
  {
    var before, after := UntagAll(index, done, id), UntagAll(index, done + {k}, id);
    if k in before {
      var left := Untag(before, k, id);
      assert left.Keys == after.Keys;
      forall x | x in left ensures left[x] == after[x] {}
    } else {
      assert before.Keys == after.Keys;
      forall x | x in before ensures before[x] == after[x] {}
    }
  }

  /** Adding a record that is not yet indexed keeps the index consistent. */
  lemma IndexedAdd<K>(index: Index<K>, keysOf: map<Id, set<K>>, id: Id, keys: set<K>)
    requires Indexed(index, keysOf)
    requires id !in keysOf
    ensures Indexed(TagAll(index, keys, id), keysOf[id := keys])
  {
  }

  /** Removing a record's keys keeps the index consistent with the other
      records. */
  lemma IndexedRemove<K>(index: Index<K>, keysOf: map<Id, set<K>>, id: Id)
    requires Indexed(index, keysOf)
    requires id in keysOf
    ensures Indexed(UntagAll(index, keysOf[id], id), keysOf - {id})
  {
  }

  /** Re-keying a record: untag the old keys, tag the new ones. */
  lemma IndexedReplace<K>(index: Index<K>, keysOf: map<Id, set<K>>, id: Id, keys: set<K>)
    requires Indexed(index, keysOf)
    requires id in keysOf
    ensures Indexed(TagAll(UntagAll(index, keysOf[id], id), keys, id), keysOf[id := keys])
  {
    IndexedRemove(index, keysOf, id);
    IndexedAdd(UntagAll(index, keysOf[id], id), keysOf - {id}, id, keys);
    assert (keysOf - {id})[id := keys] == keysOf[id := keys];
  }

  /** The single-key steps are the one-key cases of the set operations. */
  lemma SingleKey<K>(index: Index<K>, k: K, id: Id)
    ensures Tag(index, k, id) == TagAll(index, {k}, id)
    ensures k in index ==> Untag(index, k, id) == UntagAll(index, {k}, id)
  {
    var tagged := TagAll(index, {k}, id);
    assert Tag(index, k, id).Keys == tagged.Keys;
    forall x | x in tagged ensures Tag(index, k, id)[x] == tagged[x] {}
    if k in index {
      var untagged := UntagAll(index, {k}, id);
      assert Untag(index, k, id).Keys == untagged.Keys;
      forall x | x in untagged ensures Untag(index, k, id)[x] == untagged[x] {}
    }
  }

  /** Tagging no key changes nothing. */
  lemma TagNothing<K>(index: Index<K>, id: Id)
    ensures TagAll(index, {}, id) == index
    ensures UntagAll(index, {}, id) == index
  {
    assert TagAll(index, {}, id).Keys == index.Keys;
    forall x | x in index ensures TagAll(index, {}, id)[x] == index[x] {}
  }

  /** In a consistent index the ids under a key are the records carrying it. */
  lemma IndexedLookup<K>(index: Index<K>, keysOf: map<Id, set<K>>, k: K)
    requires Indexed(index, keysOf)
    ensures k in index ==> index[k] == set id | id in keysOf && k in keysOf[id]
    ensures k !in index ==> forall id :: id in keysOf ==> k !in keysOf[id]
  {
  }

  /** The name keys of every stored record. */
  function NameKeyMap(names: map<Id, string>): map<Id, set<string>> {
    map id | id in names :: NameKeys(Lower(names[id]))
  }

  /** Recording (or replacing) one record's name re-keys just that record. */
  lemma NameKeyMapUpdate(names: map<Id, string>, id: Id, name: string)
    ensures NameKeyMap(names[id := name]) == NameKeyMap(names)[id := NameKeys(Lower(name))]
    ensures NameKeyMap(names - {id}) == NameKeyMap(names) - {id}
  {
    assert NameKeyMap(names[id := name]).Keys == (NameKeyMap(names)[id := NameKeys(Lower(name))]).Keys;
    assert NameKeyMap(names - {id}).Keys == (NameKeyMap(names) - {id}).Keys;
  }

  /** The name index after `update` with the patch's `name` field: when
      that name is truthy and differs from the stored one, `id` leaves every
      key of the old name and joins every key of the new one. */
  function Renamed(index: Index<string>, id: Id, oldName: string, newName: Option<string>): Index<string> {
    if Truthy(newName) && newName.value != oldName
    then TagAll(UntagAll(index, NameKeys(Lower(oldName)), id), NameKeys(Lower(newName.value)), id)
    else index
  }

  /** Renaming keeps the name index consistent with the merged names, as long
      as the new name is not the empty string (which the truthiness guard
      would skip while the merge still stored it). */
  lemma RenameKeepsIndexed(index: Index<string>, names: map<Id, string>, id: Id, newName: Option<string>)
    requires Indexed(index, NameKeyMap(names))
    requires id in names
    requires newName != Some("")
    ensures Indexed(Renamed(index, id, names[id], newName), NameKeyMap(names[id := Pick(newName, names[id])]))
  {
    var merged := Pick(newName, names[id]);
    NameKeyMapUpdate(names, id, merged);
    if Truthy(newName) && newName.value != names[id] {
      IndexedReplace(index, NameKeyMap(names), id, NameKeys(Lower(merged)));
    } else {
      assert names[id := merged] == names;
    }
  }

  /** The categorical index after `update` with an optional new key: when it
      is present and differs from the stored one, `id` moves from the old
      key's set to the new key's set. */
  function Retagged<K>(index: Index<K>, id: Id, oldKey: K, newKey: Option<K>): Index<K>
    requires oldKey in index
  {
    if newKey.Some? && newKey.value != oldKey then Tag(Untag(index, oldKey, id), newKey.value, id) else index
  }

  /** Moving a record to a new key keeps a categorical index consistent. */
  lemma RetagKeepsIndexed<K>(index: Index<K>, keysOf: map<Id, set<K>>, id: Id, oldKey: K, newKey: Option<K>)
    requires Indexed(index, keysOf)
    requires id in keysOf && keysOf[id] == {oldKey}
    ensures oldKey in index
    ensures Indexed(Retagged(index, id, oldKey, newKey), keysOf[id := {Pick(newKey, oldKey)}])
  {
    if newKey.Some? && newKey.value != oldKey {
      SingleKey(index, oldKey, id);
      SingleKey(Untag(index, oldKey, id), newKey.value, id);
      IndexedReplace(index, keysOf, id, {newKey.value});
    } else {
      assert keysOf[id := {Pick(newKey, oldKey)}] == keysOf;
    }
  }

  /** The case-insensitive name search the stores promise: the record's
      lower-cased name has at least three characters and contains the
      lower-cased query. */
  predicate NameMatches(name: string, query: string) {
    |Lower(name)| >= 3 && Includes(Lower(name), Lower(query))
  }

  /** Scanning the keys of a consistent name index for those that contain
      the query finds exactly the records whose names match it. */
  lemma {:induction false} NameSearch(index: Index<string>, names: map<Id, string>, query: string, id: Id)
    requires Indexed(index, NameKeyMap(names))
    ensures (exists k :: k in index && Includes(k, Lower(query)) && id in index[k])
        <==> id in names && NameMatches(names[id], query)
  {
    var keysOf, q := NameKeyMap(names), Lower(query);
    if id in names {
      var n := Lower(names[id]);
      NameKeysMatch(n, q);
      assert keysOf[id] == NameKeys(n);
      if k :| k in index && Includes(k, q) && id in index[k] {
        assert k in NameKeys(n);
      }
      if k :| k in NameKeys(n) && Includes(k, q) {
        assert k in index && id in index[k];
      }
    } else {
      assert id !in keysOf;
    }
  }

  /** The ids filed under every key of the index that contains the
      lower-cased query, gathered into one set. */
  method MatchingIds(index: Index<string>, query: string) returns (ids: set<Id>)
    ensures forall id :: id in ids <==> exists k :: k in index && Includes(k, Lower(query)) && id in index[k]
  {
    var queryLower := Lower(query);
    ids := {};
    var entries := index.Keys;
    while entries != {}
      invariant entries <= index.Keys
      invariant forall id :: id in ids <==>
                  exists k :: k in index && k !in entries && Includes(k, queryLower) && id in index[k]
      decreases |entries|
    {
      var k :| k in entries;
      if Includes(k, queryLower) {
        ids := ids + index[k];
      }
      entries := entries - {k};
    }
  }

  /** The stored records of the given ids, in the same order. */
  function Lookup<V>(records: map<Id, V>, ids: seq<Id>): (r: seq<V>)
    requires forall id :: id in ids ==> id in records
    ensures |r| == |ids|
    ensures forall i :: 0 <= i < |ids| ==> r[i] == records[ids[i]]
  {
    seq(|ids|, i requires 0 <= i < |ids| => records[ids[i]])
  }

  /** Index a name: every substring longer than two characters of its
      lower-cased form gets `id`, one substring at a time. */
  method IndexName(index: Index<string>, name: string, id: Id) returns (r: Index<string>)
    ensures r == TagAll(index, NameKeys(Lower(name)), id)
  {
    var nameLower := Lower(name);
    r := index;
    ghost var done: set<string> := {};
    TagNothing(index, id);
    var i := 0;
    while i < |nameLower|
      invariant 0 <= i <= |nameLower|
      invariant r == TagAll(index, done, id)
      invariant done <= NameKeys(nameLower)
      invariant forall a, b :: 0 <= a < i && a < b <= |nameLower| && b - a > 2 ==> nameLower[a..b] in done
    {
      var j := i + 1;
      while j <= |nameLower|
        invariant i + 1 <= j <= |nameLower| + 1
        invariant r == TagAll(index, done, id)
        invariant done <= NameKeys(nameLower)
        invariant forall a, b :: 0 <= a < i && a < b <= |nameLower| && b - a > 2 ==> nameLower[a..b] in done
        invariant forall b :: i < b < j && b - i > 2 ==> nameLower[i..b] in done
      {
        var substring := nameLower[i..j];
        if |substring| > 2 {
          TagStep(index, done, substring, id);
          r := Tag(r, substring, id);
          done := done + {substring};
        }
        j := j + 1;
      }
      i := i + 1;
    }
    assert done == NameKeys(nameLower);
  }

  /** Unindex a name: `id` leaves the set of every substring longer than two
      characters of its lower-cased form, and sets left empty are dropped. */
  method UnindexName(index: Index<string>, name: string, id: Id) returns (r: Index<string>)
    ensures r == UntagAll(index, NameKeys(Lower(name)), id)
  {
    var nameLower := Lower(name);
    r := index;
    ghost var done: set<string> := {};
    TagNothing(index, id);
    var i := 0;
    while i < |nameLower|
      invariant 0 <= i <= |nameLower|
      invariant r == UntagAll(index, done, id)
      invariant done <= NameKeys(nameLower)
      invariant forall a, b :: 0 <= a < i && a < b <= |nameLower| && b - a > 2 ==> nameLower[a..b] in done
    {
      var j := i + 1;
      while j <= |nameLower|
        invariant i + 1 <= j <= |nameLower| + 1
        invariant r == UntagAll(index, done, id)
        invariant done <= NameKeys(nameLower)
        invariant forall a, b :: 0 <= a < i && a < b <= |nameLower| && b - a > 2 ==> nameLower[a..b] in done
        invariant forall b :: i < b < j && b - i > 2 ==> nameLower[i..b] in done
      {
        var substring := nameLower[i..j];
        if |substring| > 2 {
          UntagStep(index, done, substring, id);
          if substring in r {
            r := Untag(r, substring, id);
          }
          done := done + {substring};
        }
        j := j + 1;
      }
      i := i + 1;
    }
    assert done == NameKeys(nameLower);
  }

  /** The re-filing step of `update` for a name field: only a truthy name
      different from the stored one moves the record. */
  method Rename(index: Index<string>, id: Id, oldName: string, newName: Option<string>) returns (r: Index<string>)
    ensures r == Renamed(index, id, oldName, newName)
  {
    r := index;
    if Truthy(newName) && newName.value != oldName {
      r := UnindexName(r, oldName, id);
      r := IndexName(r, newName.value, id);
    }
  }

  /** The re-filing step of `update` for a categorical field: a present key
      different from the stored one moves the record. */
  method Refile<K>(index: Index<K>, id: Id, oldKey: K, newKey: Option<K>) returns (r: Index<K>)
    requires oldKey in index
    ensures r == Retagged(index, id, oldKey, newKey)
  {
    r := index;
    if newKey.Some? && newKey.value != oldKey {
      r := Untag(r, oldKey, id);
      r := Tag(r, newKey.value, id);
    }
  }

  /** The identifiers of a set, each exactly once, in an
      order the model leaves open. */
  method Enumerate(ids: set<Id>) returns (order: seq<Id>)
    ensures |order| == |ids|
    ensures forall id :: id in order <==> id in ids
    ensures forall i, j :: 0 <= i < j < |order| ==> order[i] != order[j]
  {
    order := [];
    var rest := ids;
    while rest != {}
      invariant rest <= ids
      invariant |order| + |rest| == |ids|
      invariant forall id :: id in order <==> id in ids - rest
      invariant forall i, j :: 0 <= i < j < |order| ==> order[i] != order[j]
      decreases |rest|
    {
      var id :| id in rest;
      assert id !in order;
      order := order + [id];
      rest := rest - {id};
    }
  }
}
