/**
 * Sequences of key/value pairs, the enumerations behind `Dictionary<,>`,
 * the request cookie collection and `HttpContext.Items`.
 *
 * `ToMap` is the keyed view of such a sequence; `FirstWithKey` is the
 * linear LINQ scan `FirstOrDefault(x => x.Key == key)` the localization
 * code uses, and is proved to agree with the keyed view.
 */
module KeyValues {
  import opened Wrappers

  /** Keyed view: each key is bound to the value of its first entry. */
  function ToMap<K, V>(entries: seq<(K, V)>): map<K, V>
  {
    if entries == [] then map[] else ToMap(entries[1..])[entries[0].0 := entries[0].1]
  }

  /** No key occurs twice (the invariant of a `Dictionary<,>`). */
  ghost predicate DistinctKeys<K, V>(entries: seq<(K, V)>)
  {
    forall i, j :: 0 <= i < j < |entries| ==> entries[i].0 != entries[j].0
  }

  /** The position the scan stops at: the first entry with `key`, or `|entries|`. */
  function IndexOfKey<K(==), V>(entries: seq<(K, V)>, key: K): (i: nat)
    ensures i <= |entries|
    ensures forall j :: 0 <= j < i ==> entries[j].0 != key
    ensures i < |entries| ==> entries[i].0 == key
  {
    if entries == [] then 0
    else if entries[0].0 == key then 0
    else 1 + IndexOfKey(entries[1..], key)
  }

  /** Every key of the sequence is a key of its map view. */
  lemma {:induction false} KeyInToMap<K, V>(entries: seq<(K, V)>, i: nat)
    requires i < |entries|
    ensures entries[i].0 in ToMap(entries)
  {
    if i > 0 {
      KeyInToMap(entries[1..], i - 1);
    }
  }

  /** The map view binds a key to the value of its first entry. */
  lemma {:induction false} ToMapFirst<K, V>(entries: seq<(K, V)>, i: nat)
    requires i < |entries|
    requires forall j :: 0 <= j < i ==> entries[j].0 != entries[i].0
    ensures entries[i].0 in ToMap(entries) && ToMap(entries)[entries[i].0] == entries[i].1
  {
    if i > 0 {
      ToMapFirst(entries[1..], i - 1);
    }
  }

  /** A key no entry carries is not in the map view. */
  lemma {:induction false} ToMapMissing<K, V>(entries: seq<(K, V)>, key: K)
    requires forall i :: 0 <= i < |entries| ==> entries[i].0 != key
    ensures key !in ToMap(entries)
  {
    if entries != [] {
      ToMapMissing(entries[1..], key);
    }
  }

  /**
   * `FirstOrDefault(x => x.Key == key)`: the first pair whose key is `key`,
   * None standing for `default(KeyValuePair<,>)` (no pair of the sequence
   * equals it, since stored keys are never null).
   */
  function FirstWithKey<K(==), V>(entries: seq<(K, V)>, key: K): (r: Option<(K, V)>)
    ensures r.None? <==> key !in ToMap(entries)
    ensures r.Some? ==> r.value == (key, ToMap(entries)[key])
    ensures r.Some? ==> IndexOfKey(entries, key) < |entries| && r.value == entries[IndexOfKey(entries, key)]
  {
    var i := IndexOfKey(entries, key);
    if i < |entries| then
      ToMapFirst(entries, i);
      Some(entries[i])
    else
      ToMapMissing(entries, key);
      None
  }

  /** Replacing the value of a key's first entry updates the map view. */
  lemma {:induction false} ToMapReplace<K, V>(entries: seq<(K, V)>, i: nat, value: V)
    requires i < |entries|
    requires forall j :: 0 <= j < i ==> entries[j].0 != entries[i].0
    ensures ToMap(entries[i := (entries[i].0, value)]) == ToMap(entries)[entries[i].0 := value]
  {
    var key := entries[i].0;
    var updated := entries[i := (key, value)];
    if i == 0 {
      assert updated[1..] == entries[1..];
    } else {
      assert updated[1..] == entries[1..][i - 1 := (key, value)];
      ToMapReplace(entries[1..], i - 1, value);
      var m := ToMap(entries[1..]);
      assert m[key := value][entries[0].0 := entries[0].1]
          == m[entries[0].0 := entries[0].1][key := value];
    }
  }

  /** Appending a pair with a new key adds exactly that binding to the map view. */
  lemma {:induction false} ToMapAppend<K, V>(entries: seq<(K, V)>, key: K, value: V)
    requires key !in ToMap(entries)
    ensures ToMap(entries + [(key, value)]) == ToMap(entries)[key := value]
  {
    if entries != [] {
      assert (entries + [(key, value)])[1..] == entries[1..] + [(key, value)];
      ToMapAppend(entries[1..], key, value);
      var m := ToMap(entries[1..]);
      assert m[key := value][entries[0].0 := entries[0].1]
          == m[entries[0].0 := entries[0].1][key := value];
    }
  }

  /**
   * `dictionary[key] = value`: overwrite the value in the key's slot, or
   * append a new slot when the key is absent.
   */
  function SetValue<K(==), V>(entries: seq<(K, V)>, key: K, value: V): (r: seq<(K, V)>)
    ensures ToMap(r) == ToMap(entries)[key := value]
    ensures DistinctKeys(entries) ==> DistinctKeys(r)
    ensures |r| == |entries| || (|r| == |entries| + 1 && r[|entries|] == (key, value))
    ensures forall j :: 0 <= j < |entries| ==> r[j].0 == entries[j].0
  {
    var i := IndexOfKey(entries, key);
    if i < |entries| then
      ToMapReplace(entries, i, value);
      entries[i := (key, value)]
    else
      ToMapMissing(entries, key);
      ToMapAppend(entries, key, value);
      entries + [(key, value)]
  }

  /**
   * `IDictionary.Add(key, value)`: append a new slot, or fail (None) when the
   * key is already present; the existing entries are never touched.
   */
  function Add<K(==), V>(entries: seq<(K, V)>, key: K, value: V): (r: Option<seq<(K, V)>>)
    ensures r.None? <==> key in ToMap(entries)
    ensures r.Some? ==> ToMap(r.value) == ToMap(entries)[key := value]
    ensures r.Some? ==> |r.value| == |entries| + 1 && r.value[..|entries|] == entries
    ensures r.Some? && DistinctKeys(entries) ==> DistinctKeys(r.value)
  {
    if key in ToMap(entries) then
      None
    else
      ToMapAppend(entries, key, value);
      assert forall i :: 0 <= i < |entries| ==> entries[i].0 != key by {
        forall i | 0 <= i < |entries| ensures entries[i].0 != key {
          KeyInToMap(entries, i);
        }
      }
      Some(entries + [(key, value)])
  }

  /** The keys occurring in a sequence of pairs. */
  function KeysOf<K, V>(entries: seq<(K, V)>): set<K>
  {
    set i | 0 <= i < |entries| :: entries[i].0
  }

  /**
   * Populating an empty `Dictionary<,>` from the members of a JSON object in
   * document order, one `dictionary[name] = value` per member: the result
   * never holds a key twice.
   */
  function FromMembers<K(==), V>(members: seq<(K, V)>): (r: seq<(K, V)>)
    ensures DistinctKeys(r)
  {
    if members == [] then []
    else
      var n := |members| - 1;
      SetValue(FromMembers(members[..n]), members[n].0, members[n].1)
  }

  /** The populated dictionary has exactly the member names as keys. */
  lemma {:induction false} FromMembersKeys<K, V>(members: seq<(K, V)>)
    ensures ToMap(FromMembers(members)).Keys == KeysOf(members)
  {
    if members != [] {
      var n := |members| - 1;
      FromMembersKeys(members[..n]);
      assert KeysOf(members) == KeysOf(members[..n]) + {members[n].0} by {
        assert forall i :: 0 <= i < n ==> members[..n][i] == members[i];
      }
    }
  }

  /** A member name is bound to the value of its last occurrence in the object. */
  lemma {:induction false} FromMembersLastWins<K, V>(members: seq<(K, V)>, i: nat)
    requires i < |members|
    requires forall j :: i < j < |members| ==> members[j].0 != members[i].0
    ensures members[i].0 in ToMap(FromMembers(members))
    ensures ToMap(FromMembers(members))[members[i].0] == members[i].1
  {
    var n := |members| - 1;
    if i < n {
      FromMembersLastWins(members[..n], i);
    }
  }
}
