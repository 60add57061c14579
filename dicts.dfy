/**
 * Python dictionaries keyed by strings, as ordered association lists.
 * Insertion order is kept because the tool's tie-breaks depend on it:
 * assigning to a present key replaces its value in place, assigning to a
 * new key appends, and `update` assigns the other dictionary's entries in
 * its order.
 */
module Dicts {
  import opened Wrappers

  type Dict<V> = seq<(string, V)>

  /** No key appears twice, as in every Python dictionary. */
  predicate UniqueKeys<V>(d: Dict<V>) {
    forall i, j :: 0 <= i < j < |d| ==> d[i].0 != d[j].0
  }

  function Keys<V>(d: Dict<V>): set<string> {
    if d == [] then {} else {d[0].0} + Keys(d[1..])
  }

  /** The keys are the first components of the entries. */
  lemma {:induction false} KeysIndex<V>(d: Dict<V>)
    ensures forall i :: 0 <= i < |d| ==> d[i].0 in Keys(d)
    ensures forall k :: k in Keys(d) ==> exists i :: 0 <= i < |d| && d[i].0 == k
  {
    if d != [] {
      KeysIndex(d[1..]);
      assert forall i :: 1 <= i < |d| ==> d[i] == d[1..][i - 1];
    }
  }

  /** The keys in iteration order. */
  function KeyList<V>(d: Dict<V>): (r: seq<string>)
    ensures |r| == |d| && forall i :: 0 <= i < |d| ==> r[i] == d[i].0
  {
    if d == [] then [] else [d[0].0] + KeyList(d[1..])
  }

  /** `d.get(k)` */
  function Get<V>(d: Dict<V>, k: string): Option<V> {
    if d == [] then None
    else if d[0].0 == k then Some(d[0].1)
    else Get(d[1..], k)
  }

  /** A key has a value exactly when it is present, and the value is bound to it. */
  lemma {:induction false} GetFound<V>(d: Dict<V>, k: string)
    ensures Get(d, k).Some? <==> k in Keys(d)
    ensures Get(d, k).Some? ==> (k, Get(d, k).value) in d
  {
    if d != [] && d[0].0 != k {
      GetFound(d[1..], k);
    }
  }

  /** `d[k] = v` */
  function Put<V>(d: Dict<V>, k: string, v: V): (r: Dict<V>)
    ensures Keys(r) == Keys(d) + {k}
    ensures k in Keys(d) ==> |r| == |d|
    ensures k !in Keys(d) ==> r == d + [(k, v)]
    ensures forall p :: p in r ==> p == (k, v) || p in d
  {
    if d == [] then [(k, v)]
    else if d[0].0 == k then [(k, v)] + d[1..]
    else
      var r := [d[0]] + Put(d[1..], k, v);
      assert r[1..] == Put(d[1..], k, v);
      r
  }

  /** `del d[k]` (every binding of `k`; in a dictionary there is at most one). */
  function Delete<V>(d: Dict<V>, k: string): (r: Dict<V>)
    ensures Keys(r) == Keys(d) - {k}
  {
    if d == [] then []
    else
      var rest := Delete(d[1..], k);
      if d[0].0 == k then rest
      else
        assert ([d[0]] + rest)[1..] == rest;
        [d[0]] + rest
  }

  /** `d.update(e)`: the entries of `e` assigned one by one, in order. */
  function Update<V>(d: Dict<V>, e: Dict<V>): (r: Dict<V>)
    ensures forall p :: p in r ==> p in d || p in e
    decreases |e|
  {
    if e == [] then d else Update(Put(d, e[0].0, e[0].1), e[1..])
  }

  /** Assigning a present key replaces its entry in place: every position keeps its key,
      the key's entry takes the new value, and in a dictionary every other entry stays. */
  lemma {:induction false} PutInPlace<V>(d: Dict<V>, k: string, v: V)
    requires k in Keys(d)
    ensures |Put(d, k, v)| == |d|
    ensures forall i :: 0 <= i < |d| ==> Put(d, k, v)[i].0 == d[i].0
    ensures UniqueKeys(d) ==> forall i :: 0 <= i < |d| ==> Put(d, k, v)[i] == if d[i].0 == k then (k, v) else d[i]
  {
    if d[0].0 != k {
      var rest := Put(d[1..], k, v);
      PutInPlace(d[1..], k, v);
      assert Put(d, k, v) == [d[0]] + rest;
      if UniqueKeys(d) {
        assert UniqueKeys(d[1..]) by {
          assert forall i :: 0 <= i < |d[1..]| ==> d[1..][i] == d[i + 1];
        }
      }
      forall i | 0 < i < |d| ensures d[1..][i - 1] == d[i] {}
    } else {
      forall i | 0 < i < |d| && UniqueKeys(d) ensures d[i].0 != k {
        assert d[0].0 != d[i].0;
      }
    }
  }

  /** Assignment changes the value of its key and of no other key. */
  lemma {:induction false} GetPut<V>(d: Dict<V>, k: string, v: V, j: string)
    ensures Get(Put(d, k, v), j) == if j == k then Some(v) else Get(d, j)
  {
    if d != [] && d[0].0 != k {
      GetPut(d[1..], k, v, j);
    }
  }

  /** Assignment keeps keys unique. */
  lemma {:induction false} PutUnique<V>(d: Dict<V>, k: string, v: V)
    requires UniqueKeys(d)
    ensures UniqueKeys(Put(d, k, v))
  {
    if d != [] && d[0].0 != k {
      var rest := Put(d[1..], k, v);
      assert UniqueKeys(d[1..]) by {
        assert forall i :: 0 <= i < |d[1..]| ==> d[1..][i] == d[i + 1];
      }
      PutUnique(d[1..], k, v);
      HeadNotInTail(d);
      ConsUnique(d[0], rest);
    }
  }

  /** In a dictionary the first key is not among the others. */
  lemma HeadNotInTail<V>(d: Dict<V>)
    requires d != [] && UniqueKeys(d)
    ensures d[0].0 !in Keys(d[1..])
  {
    KeysIndex(d[1..]);
    forall i | 0 <= i < |d[1..]| ensures d[1..][i].0 != d[0].0 {
      assert d[1..][i] == d[i + 1];
    }
  }

  /** A key not among a dictionary's keys can go in front of it. */
  lemma ConsUnique<V>(x: (string, V), d: Dict<V>)
    requires UniqueKeys(d) && x.0 !in Keys(d)
    ensures UniqueKeys([x] + d)
  {
    KeysIndex(d);
    var r := [x] + d;
    forall i, j | 0 <= i < j < |r| ensures r[i].0 != r[j].0 {
      assert r[j] == d[j - 1];
      if i > 0 {
        assert r[i] == d[i - 1];
      }
    }
  }

  /** Deletion removes its key and no other. */
  lemma {:induction false} GetDelete<V>(d: Dict<V>, k: string, j: string)
    ensures Get(Delete(d, k), j) == if j == k then None else Get(d, j)
  {
    if d != [] {
      GetDelete(d[1..], k, j);
    }
  }

  /** After `d.update(e)`, a key of `e` has `e`'s value, any other key keeps its value. */
  lemma {:induction false} GetUpdate<V>(d: Dict<V>, e: Dict<V>, j: string)
    requires UniqueKeys(e)
    ensures Get(Update(d, e), j) == if j in Keys(e) then Get(e, j) else Get(d, j)
    decreases |e|
  {
    if e != [] {
      assert UniqueKeys(e[1..]);
      GetUpdate(Put(d, e[0].0, e[0].1), e[1..], j);
      GetPut(d, e[0].0, e[0].1, j);
      assert Keys(e) == {e[0].0} + Keys(e[1..]);
      if j == e[0].0 {
        KeysIndex(e[1..]);
        assert j !in Keys(e[1..]);
      }
    }
  }

  lemma {:induction false} UpdateKeys<V>(d: Dict<V>, e: Dict<V>)
    ensures Keys(Update(d, e)) == Keys(d) + Keys(e)
    decreases |e|
  {
    if e != [] {
      UpdateKeys(Put(d, e[0].0, e[0].1), e[1..]);
      assert Keys(e) == {e[0].0} + Keys(e[1..]);
    }
  }

  lemma {:induction false} UpdateUnique<V>(d: Dict<V>, e: Dict<V>)
    requires UniqueKeys(d)
    ensures UniqueKeys(Update(d, e))
    decreases |e|
  {
    if e != [] {
      PutUnique(d, e[0].0, e[0].1);
      UpdateUnique(Put(d, e[0].0, e[0].1), e[1..]);
    }
  }

  /** Keys of a prefix and the key that extends it. */
  lemma {:induction false} KeysSnoc<V>(d: Dict<V>, x: (string, V))
    ensures Keys(d + [x]) == Keys(d) + {x.0}
  {
    if d != [] {
      assert (d + [x])[1..] == d[1..] + [x];
      KeysSnoc(d[1..], x);
    }
  }

  /** The value of a key in a dictionary with unique keys is the one bound at its position. */
  lemma {:induction false} GetAt<V>(d: Dict<V>, i: nat)
    requires UniqueKeys(d) && i < |d|
    ensures Get(d, d[i].0) == Some(d[i].1)
  {
    if i > 0 {
      assert UniqueKeys(d[1..]);
      GetAt(d[1..], i - 1);
    }
  }

  /** The first entry with a key holds the value found for it. */
  lemma {:induction false} GetFirst<V>(d: Dict<V>, i: nat)
    requires i < |d| && forall j :: 0 <= j < i ==> d[j].0 != d[i].0
    ensures Get(d, d[i].0) == Some(d[i].1)
  {
    if i > 0 {
      GetFirst(d[1..], i - 1);
    }
  }

  /** Three dictionaries merged into the empty one in order: the last that has a key provides its value. */
  lemma GetMerged<V>(a: Dict<V>, b: Dict<V>, c: Dict<V>, k: string)
    requires UniqueKeys(a) && UniqueKeys(b) && UniqueKeys(c)
    ensures Get(Update(Update(Update([], a), b), c), k) ==
            if k in Keys(c) then Get(c, k) else if k in Keys(b) then Get(b, k) else Get(a, k)
  {
    GetUpdate(Update(Update([], a), b), c, k);
    GetUpdate(Update([], a), b, k);
    GetUpdate([], a, k);
    GetFound(a, k);
  }
}
