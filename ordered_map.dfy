/**
 * JavaScript's `Map` as the in-memory store uses it: entries iterate in insertion order,
 * `set` on a key already present replaces that entry where it stands, and `set` on a new
 * key appends. Every map of the store derives its key from the stored value, so a map is
 * the sequence of its values (`Array.from(map.values())`) together with the key function.
 */
module OrderedMap {
  import opened Wrappers

  /** No two entries share a key. */
  predicate KeysDistinct<K(==), V>(s: seq<V>, key: V -> K) {
    forall i, j :: 0 <= i < j < |s| ==> key(s[i]) != key(s[j])
  }

  /** The position of the first entry whose key is k. */
  function Find<K(==), V>(s: seq<V>, key: V -> K, k: K): (r: Option<nat>)
    ensures r.Some? ==> r.value < |s| && key(s[r.value]) == k
    ensures r.Some? ==> forall j :: 0 <= j < r.value ==> key(s[j]) != k
    ensures r.None? <==> forall j :: 0 <= j < |s| ==> key(s[j]) != k
  {
    if |s| == 0 then None
    else if key(s[0]) == k then Some(0)
    else match Find(s[1..], key, k)
      case None => None
      case Some(i) => Some(i + 1)
  }

  /** `map.get(k)`: the entry stored under k, or `undefined`. */
  function Get<K(==), V>(s: seq<V>, key: V -> K, k: K): (r: Option<V>)
    ensures r.Some? ==> r.value in s && key(r.value) == k
    ensures r.None? <==> forall j :: 0 <= j < |s| ==> key(s[j]) != k
  {
    match Find(s, key, k)
    case None => None
    case Some(i) => Some(s[i])
  }

  /** `map.set(key(v), v)`. */
  function Set<K(==), V>(s: seq<V>, key: V -> K, v: V): seq<V> {
    match Find(s, key, key(v))
    case None => s + [v]
    case Some(i) => s[i := v]
  }

  /** The first position holding key k is what `Find` returns. */
  lemma {:induction false} FindFirst<K, V>(s: seq<V>, key: V -> K, k: K, i: nat)
    requires i < |s| && key(s[i]) == k
    requires forall j :: 0 <= j < i ==> key(s[j]) != k
    ensures Find(s, key, k) == Some(i)
  {
    if i > 0 {
      FindFirst(s[1..], key, k, i - 1);
    }
  }

  /** In a map whose keys are distinct, the entry at position i is what `get` returns for its key. */
  lemma GetAt<K, V>(s: seq<V>, key: V -> K, i: nat)
    requires KeysDistinct(s, key) && i < |s|
    ensures Find(s, key, key(s[i])) == Some(i)
    ensures Get(s, key, key(s[i])) == Some(s[i])
  {
    FindFirst(s, key, key(s[i]), i);
  }

  /** After `set`, `get` of the key just set returns the new value, and `get` of any other
      key returns what it returned before. */
  lemma GetSet<K, V>(s: seq<V>, key: V -> K, v: V, k: K)
    ensures Get(Set(s, key, v), key, k) == if k == key(v) then Some(v) else Get(s, key, k)
  {
    var t := Set(s, key, v);
    match Find(s, key, key(v))
    case None =>
      if k != key(v) {
        match Find(s, key, k)
        case None =>
        case Some(i) => FindFirst(t, key, k, i);
      } else {
        FindFirst(t, key, k, |s|);
      }
    case Some(i) =>
      if k != key(v) {
        match Find(s, key, k)
        case None =>
        case Some(j) => FindFirst(t, key, k, j);
      } else {
        FindFirst(t, key, k, i);
      }
  }

  /** Position j holds the first entry whose key is k. */
  predicate FirstWithKey<K(==), V>(s: seq<V>, key: V -> K, k: K, j: nat) {
    j < |s| && key(s[j]) == k && forall l :: 0 <= l < j ==> key(s[l]) != k
  }

  /** `set` grows the map by one entry exactly when no entry has the key, and then the new
      entry comes last; otherwise the first entry with the key becomes the new value in
      its place. Every other entry keeps its position. */
  lemma SetShape<K, V>(s: seq<V>, key: V -> K, v: V)
    ensures |Set(s, key, v)| == |s| + (if forall j :: 0 <= j < |s| ==> key(s[j]) != key(v) then 1 else 0)
    ensures forall j :: 0 <= j < |s| ==> Set(s, key, v)[j] == if FirstWithKey(s, key, key(v), j) then v else s[j]
    ensures |Set(s, key, v)| > |s| ==> Set(s, key, v)[|s|] == v
  {
    match Find(s, key, key(v))
    case None =>
      assert forall j :: 0 <= j < |s| ==> !FirstWithKey(s, key, key(v), j);
    case Some(i) =>
      forall j | 0 <= j < |s|
        ensures FirstWithKey(s, key, key(v), j) <==> j == i
      {
      }
  }

  /** `set` in the two cases of its definition, for the proofs about the store. */
  lemma SetCases<K, V>(s: seq<V>, key: V -> K, v: V)
    ensures Find(s, key, key(v)).None? ==> Set(s, key, v) == s + [v]
    ensures Find(s, key, key(v)).Some? ==>
      Set(s, key, v) == s[Find(s, key, key(v)).value := v] && key(s[Find(s, key, key(v)).value]) == key(v)
  {
  }

  /** `set` keeps the keys distinct. */
  lemma {:induction false} SetKeysDistinct<K, V>(s: seq<V>, key: V -> K, v: V)
    requires KeysDistinct(s, key)
    ensures KeysDistinct(Set(s, key, v), key)
  {
    var t := Set(s, key, v);
    match Find(s, key, key(v))
    case None =>
      forall i, j | 0 <= i < j < |t|
        ensures key(t[i]) != key(t[j])
      {
        if j == |s| {
          assert t[j] == v && t[i] == s[i];
        }
      }
    case Some(p) =>
      forall i, j | 0 <= i < j < |t|
        ensures key(t[i]) != key(t[j])
      {
        assert key(t[i]) == key(s[i]) && key(t[j]) == key(s[j]);
      }
  }
}
