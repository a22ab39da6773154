/**
 * A Python `dict` with string keys, as a sequence of key/value slots in
 * insertion order: assigning to a present key keeps its place, assigning to
 * a new key appends it, and `del` closes the gap. Iterating a dict visits the
 * slots in this order.
 */
module InsertionDict {
  import opened Wrappers
  import Lists

  datatype Slot<V> = Slot(key: string, value: V)

  type Dict<V> = seq<Slot<V>>

  function Keys<V>(d: Dict<V>): (ks: seq<string>)
    ensures |ks| == |d|
    ensures forall i :: 0 <= i < |d| ==> ks[i] == d[i].key
  {
    seq(|d|, i requires 0 <= i < |d| => d[i].key)
  }

  /** Every key appears in one slot only, as in any Python dict. */
  predicate UniqueKeys<V>(d: Dict<V>) {
    forall i, j :: 0 <= i < j < |d| ==> d[i].key != d[j].key
  }

  /** The slot holding `k`, if any. */
  function IndexOfKey<V>(d: Dict<V>, k: string): (r: Option<nat>)
    ensures r.Some? ==> r.value < |d| && d[r.value].key == k
    ensures r.Some? ==> forall j :: 0 <= j < r.value ==> d[j].key != k
    ensures r.None? ==> forall j :: 0 <= j < |d| ==> d[j].key != k
  {
    if |d| == 0 then None
    else if d[0].key == k then Some(0)
    else match IndexOfKey(d[1..], k)
      case Some(i) => Some(i + 1)
      case None => None
  }

  /** `d.get(k)`, with None for a missing key. */
  function Lookup<V>(d: Dict<V>, k: string): (r: Option<V>)
    ensures r.Some? <==> k in Keys(d)
    ensures r.Some? ==> exists i :: 0 <= i < |d| && d[i] == Slot(k, r.value)
  {
    match IndexOfKey(d, k)
    case Some(i) => Some(d[i].value)
    case None => None
  }

  /** `d[k] = v`. */
  function Put<V>(d: Dict<V>, k: string, v: V): Dict<V> {
    match IndexOfKey(d, k)
    case Some(i) => d[i := Slot(k, v)]
    case None => d + [Slot(k, v)]
  }

  /** `del d[k]`, and nothing when `k` is missing. */
  function Delete<V>(d: Dict<V>, k: string): Dict<V> {
    match IndexOfKey(d, k)
    case Some(i) => d[..i] + d[i + 1..]
    case None => d
  }

  /** In a dict with unique keys, a key's slot is the one `Lookup` reads. */
  lemma {:induction false} LookupAt<V>(d: Dict<V>, i: nat)
    requires UniqueKeys(d) && i < |d|
    ensures Lookup(d, d[i].key) == Some(d[i].value)
  {
  }

  /**
   * `d[k] = v` stores `v` under `k`, leaves every other key's value where it
   * was, keeps the keys unique, and moves no key: a present key keeps its
   * place and a new one goes last.
   */
  lemma {:induction false} PutSpec<V>(d: Dict<V>, k: string, v: V)
    requires UniqueKeys(d)
    ensures UniqueKeys(Put(d, k, v))
    ensures Lookup(Put(d, k, v), k) == Some(v)
    ensures forall k' :: k' != k ==> Lookup(Put(d, k, v), k') == Lookup(d, k')
    ensures Keys(Put(d, k, v)) == if k in Keys(d) then Keys(d) else Keys(d) + [k]
  {
    var r := Put(d, k, v);
    forall k' | k' != k
      ensures Lookup(r, k') == Lookup(d, k')
    {
      match IndexOfKey(d, k')
      case Some(j) =>
        LookupAt(r, j);
      case None =>
        assert k' !in Keys(r);
    }
    assert Keys(r) == if k in Keys(d) then Keys(d) else Keys(d) + [k];
  }

  /**
   * `del d[k]` removes `k`, leaves every other key's value where it was, keeps
   * the keys unique, and keeps the other keys in their order.
   */
  lemma {:induction false} DeleteSpec<V>(d: Dict<V>, k: string)
    requires UniqueKeys(d)
    ensures UniqueKeys(Delete(d, k))
    ensures Lookup(Delete(d, k), k) == None
    ensures forall k' :: k' != k ==> Lookup(Delete(d, k), k') == Lookup(d, k')
    ensures Keys(Delete(d, k)) == Lists.RemoveFirst(Keys(d), k)
  {
    var r := Delete(d, k);
    match IndexOfKey(d, k) {
    case Some(i) =>
      assert forall j :: 0 <= j < |r| ==> r[j] == if j < i then d[j] else d[j + 1];
      assert UniqueKeys(r);
      assert k !in Keys(r);
      forall k' | k' != k
        ensures Lookup(r, k') == Lookup(d, k')
      {
        match IndexOfKey(d, k')
        case Some(j) =>
          if j < i {
            LookupAt(r, j);
          } else {
            LookupAt(r, j - 1);
          }
        case None =>
          assert k' !in Keys(r);
      }
    case None =>
    }
    DeleteKeys(d, k);
  }

  /** The key order after `del d[k]`, used by `DeleteSpec`. */
  lemma {:induction false} DeleteKeys<V>(d: Dict<V>, k: string)
    ensures Keys(Delete(d, k)) == Lists.RemoveFirst(Keys(d), k)
  {
    match IndexOfKey(d, k)
    case Some(i) =>
      Lists.RemoveFirstAt(Keys(d), k, i);
      assert Keys(Delete(d, k)) == Keys(d)[..i] + Keys(d)[i + 1..];
    case None =>
  }
}
