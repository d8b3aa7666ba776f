/**
  A JavaScript plain object used as a dictionary, as the shortcut database uses
  its objects: the own keys with their values, in the order Object.entries
  enumerates them. For the non-numeric keys this program stores (shortcut names
  and absolute paths) that is insertion order: assigning to an existing key keeps
  its place, assigning to a new key appends it, and `delete` removes the key
  without disturbing the order of the others.
 */
module Dict {

  datatype Option<T> = None | Some(value: T)

  type Entries<K, V> = seq<(K, V)>

  /** Every key occurs once, as in any JavaScript object. */
  ghost predicate DistinctKeys<K, V>(e: Entries<K, V>) {
    forall i, j :: 0 <= i < j < |e| ==> e[i].0 != e[j].0
  }

  /** The position of key `k` in iteration order (its first occurrence). */
  function IndexOf<K(==), V>(e: Entries<K, V>, k: K): (r: Option<nat>)
    ensures r.Some? ==> r.value < |e| && e[r.value].0 == k
    ensures r.Some? ==> forall j :: 0 <= j < r.value ==> e[j].0 != k
    ensures r.None? <==> forall j :: 0 <= j < |e| ==> e[j].0 != k
  {
    if |e| == 0 then None
    else if e[0].0 == k then Some(0)
    else match IndexOf(e[1..], k)
      case Some(i) => Some(i + 1)
      case None => None
  }

  /** `k` is an own key of the object. */
  predicate Has<K(==), V>(e: Entries<K, V>, k: K) {
    IndexOf(e, k).Some?
  }

  /** `obj[k]` read as an own property: None when `k` is not an own key. */
  function Get<K(==), V>(e: Entries<K, V>, k: K): (r: Option<V>)
    ensures r.Some? <==> Has(e, k)
    ensures r.None? <==> forall j :: 0 <= j < |e| ==> e[j].0 != k
    ensures DistinctKeys(e) ==> forall j :: 0 <= j < |e| && e[j].0 == k ==> r == Some(e[j].1)
  {
    match IndexOf(e, k)
    case Some(i) => Some(e[i].1)
    case None => None
  }

  /** Two entry lists whose keys agree position by position find every key at the same place. */
  lemma {:induction false} IndexOfSameKeys<K, V>(e1: Entries<K, V>, e2: Entries<K, V>, k: K)
    requires |e1| <= |e2|
    requires forall j :: 0 <= j < |e1| ==> e1[j].0 == e2[j].0
    requires IndexOf(e1, k).Some? || forall j :: |e1| <= j < |e2| ==> e2[j].0 != k
    ensures IndexOf(e2, k) == IndexOf(e1, k)
  {
    match IndexOf(e1, k)
    case Some(i) =>
      assert e2[i].0 == k;
      assert forall j :: 0 <= j < i ==> e2[j].0 != k;
    case None =>
      assert forall j :: 0 <= j < |e2| ==> e2[j].0 != k;
  }

  /** `obj[k] = v`: an existing key keeps its place, a new key goes last. */
  function Put<K(==), V>(e: Entries<K, V>, k: K, v: V): (r: Entries<K, V>)
    ensures |r| == if Has(e, k) then |e| else |e| + 1
    ensures (k, v) in r
  {
    match IndexOf(e, k)
    case Some(i) => assert e[i := (k, v)][i] == (k, v); e[i := (k, v)]
    case None => e + [(k, v)]
  }

  /** After `obj[k] = v`, `k` maps to `v` and every other key to what it mapped to before. */
  lemma PutGet<K(!new), V>(e: Entries<K, V>, k: K, v: V)
    ensures Get(Put(e, k, v), k) == Some(v)
    ensures forall k' :: k' != k ==> Get(Put(e, k, v), k') == Get(e, k')
  {
    var r := Put(e, k, v);
    match IndexOf(e, k)
    case Some(i) =>
      IndexOfSameKeys(e, r, k);
      forall k' | k' != k ensures Get(r, k') == Get(e, k') {
        IndexOfSameKeys(e, r, k');
      }
    case None =>
      assert forall j :: 0 <= j < |e| ==> r[j] == e[j];
      assert r[|e|].0 == k;
      forall k' | k' != k ensures Get(r, k') == Get(e, k') {
        IndexOfSameKeys(e, r, k');
      }
  }

  /**
    `obj[k] = v` keeps every key in its place and changes at most one entry,
    to `(k, v)`; so the keys stay distinct.
   */
  lemma PutShape<K, V>(e: Entries<K, V>, k: K, v: V)
    ensures |Put(e, k, v)| == if Has(e, k) then |e| else |e| + 1
    ensures forall j :: 0 <= j < |e| ==> Put(e, k, v)[j].0 == e[j].0
    ensures forall j :: 0 <= j < |Put(e, k, v)| ==> Put(e, k, v)[j] == (k, v) || (j < |e| && Put(e, k, v)[j] == e[j])
    ensures DistinctKeys(e) ==> DistinctKeys(Put(e, k, v))
  {
  }

  /** `delete obj[k]`: the other keys keep their relative order. */
  function Delete<K(==), V>(e: Entries<K, V>, k: K): (r: Entries<K, V>)
    ensures |r| == if Has(e, k) then |e| - 1 else |e|
    ensures !Has(e, k) ==> r == e
  {
    match IndexOf(e, k)
    case Some(i) => e[..i] + e[i + 1..]
    case None => e
  }

  /** After `delete obj[k]`, `k` is gone and every other key maps to what it mapped to before. */
  lemma DeleteGet<K(!new), V>(e: Entries<K, V>, k: K)
    ensures DistinctKeys(e) ==> !Has(Delete(e, k), k)
    ensures forall k' :: k' != k ==> Get(Delete(e, k), k') == Get(e, k')
  {
    match IndexOf(e, k)
    case Some(i) =>
      forall k' | k' != k ensures Get(Delete(e, k), k') == Get(e, k') {
        DeleteKeepsOthers(e, i, k');
      }
      var r := Delete(e, k);
      assert forall j :: 0 <= j < i ==> r[j] == e[j];
      assert forall j :: i <= j < |r| ==> r[j] == e[j + 1];
    case None =>
  }

  /** `delete obj[k]` removes one entry when the key is present and keeps the keys distinct. */
  lemma DeleteShape<K, V>(e: Entries<K, V>, k: K)
    ensures |Delete(e, k)| == if Has(e, k) then |e| - 1 else |e|
    ensures forall j :: 0 <= j < |Delete(e, k)| ==>
              exists j' :: 0 <= j' < |e| && Delete(e, k)[j] == e[j']
    ensures DistinctKeys(e) ==> DistinctKeys(Delete(e, k))
  {
    match IndexOf(e, k)
    case Some(i) =>
      var r := Delete(e, k);
      assert forall j :: 0 <= j < i ==> r[j] == e[j];
      assert forall j :: i <= j < |r| ==> r[j] == e[j + 1];
    case None =>
  }

  /** Dropping the entry at `i` does not change what another key maps to. */
  lemma DeleteKeepsOthers<K, V>(e: Entries<K, V>, i: nat, k': K)
    requires i < |e| && e[i].0 != k'
    ensures Get(e[..i] + e[i + 1..], k') == Get(e, k')
  {
    var r := e[..i] + e[i + 1..];
    assert forall j :: 0 <= j < i ==> r[j] == e[j];
    assert forall j :: i <= j < |r| ==> r[j] == e[j + 1];
    match IndexOf(e, k')
    case Some(p) =>
      if p < i {
        assert r[p] == e[p];
        assert IndexOf(r, k') == Some(p);
      } else {
        assert r[p - 1] == e[p];
        assert IndexOf(r, k') == Some(p - 1);
      }
    case None =>
  }

  /** Assigning a key twice leaves only the second value, in the key's first place. */
  lemma PutPut<K, V>(e: Entries<K, V>, k: K, v1: V, v2: V)
    ensures Put(Put(e, k, v1), k, v2) == Put(e, k, v2)
  {
    var r := Put(e, k, v1);
    match IndexOf(e, k)
    case Some(i) =>
      IndexOfSameKeys(e, r, k);
    case None =>
      assert forall j :: 0 <= j < |e| ==> r[j] == e[j];
      assert r[|e|].0 == k;
      assert IndexOf(r, k) == Some(|e|);
  }

  /** Deleting a key just assigned deletes the entry it replaced. */
  lemma PutThenDelete<K, V>(e: Entries<K, V>, k: K, v: V)
    requires Has(e, k)
    ensures Delete(Put(e, k, v), k) == Delete(e, k)
  {
    var i := IndexOf(e, k).value;
    var r := Put(e, k, v);
    IndexOfSameKeys(e, r, k);
    assert r[..i] == e[..i];
    assert r[i + 1..] == e[i + 1..];
  }
}
