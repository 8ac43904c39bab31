/**
 * Python dictionaries with string keys, as their entries in insertion order.
 * Order matters to the modelled code: `list(d.values())` and `dict.update`
 * both follow it.
 */
module Dicts {
  import opened Wrappers

  type Dict<V> = seq<(string, V)>

  /** The keys of `d`, in insertion order. */
  function Keys<V>(d: Dict<V>): (ks: seq<string>)
    ensures |ks| == |d|
    ensures forall i :: 0 <= i < |d| ==> ks[i] == d[i].0
  {
    if d == [] then [] else [d[0].0] + Keys(d[1..])
  }

  /** Two dictionaries with the same key at every position have the same keys. */
  lemma SameKeys<V, W>(a: Dict<V>, b: Dict<W>)
    requires |a| == |b| && forall i :: 0 <= i < |a| ==> a[i].0 == b[i].0
    ensures Keys(a) == Keys(b)
  {
  }

  /** No key occurs twice in `ks`. */
  predicate Distinct(ks: seq<string>) {
    forall i, j :: 0 <= i < j < |ks| ==> ks[i] != ks[j]
  }

  /** A real dictionary holds each key once. */
  predicate UniqueKeys<V>(d: Dict<V>) {
    Distinct(Keys(d))
  }

  /** The first key of a dictionary does not recur, and the rest is a dictionary. */
  lemma UniqueTail<V>(d: Dict<V>)
    requires d != [] && UniqueKeys(d)
    ensures d[0].0 !in Keys(d[1..]) && UniqueKeys(d[1..])
  {
    assert forall i :: 0 <= i < |d| - 1 ==> Keys(d[1..])[i] == Keys(d)[i + 1];
  }

  /** `d.get(k)`: the value stored under `k`, if any. */
  function Get<V>(d: Dict<V>, k: string): (r: Option<V>)
    ensures r.Some? <==> k in Keys(d)
  {
    if d == [] then None
    else if d[0].0 == k then Some(d[0].1)
    else Get(d[1..], k)
  }

  /** `d[k] = v`: replaces the value in place when `k` is present, appends otherwise. */
  function Put<V>(d: Dict<V>, k: string, v: V): (r: Dict<V>)
    ensures Get(r, k) == Some(v)
    ensures forall k' :: k' != k ==> Get(r, k') == Get(d, k')
  {
    if d == [] then [(k, v)]
    else if d[0].0 == k then
      var r := [(k, v)] + d[1..];
      assert r[1..] == d[1..];
      r
    else
      var rest := Put(d[1..], k, v);
      var r := [d[0]] + rest;
      assert r[1..] == rest;
      r
  }

  /** `del d[k]` once `k` is known to be present: every entry under `k` goes, the rest keep their order. */
  function Remove<V>(d: Dict<V>, k: string): (r: Dict<V>)
    ensures k !in Keys(r)
    ensures forall k' :: k' != k ==> Get(r, k') == Get(d, k')
    ensures |r| <= |d|
    ensures k in Keys(d) ==> |r| < |d|
  {
    if d == [] then []
    else if d[0].0 == k then Remove(d[1..], k)
    else
      var rest := Remove(d[1..], k);
      var r := [d[0]] + rest;
      assert r[1..] == rest;
      r
  }

  /** Deleting a key that is absent changes nothing. */
  lemma {:induction false} RemoveAbsent<V>(d: Dict<V>, k: string)
    requires k !in Keys(d)
    ensures Remove(d, k) == d
  {
    if d != [] {
      assert k !in Keys(d[1..]) by {
        assert forall i :: 0 <= i < |d| - 1 ==> Keys(d[1..])[i] == Keys(d)[i + 1];
      }
      RemoveAbsent(d[1..], k);
      assert d == [d[0]] + d[1..];
    }
  }

  /** In a real dictionary, `del d[k]` on a present key removes exactly one entry. */
  lemma {:induction false} RemoveOne<V>(d: Dict<V>, k: string)
    requires UniqueKeys(d) && k in Keys(d)
    ensures |Remove(d, k)| == |d| - 1
  {
    UniqueTail(d);
    if d[0].0 == k {
      RemoveAbsent(d[1..], k);
    } else {
      assert k in Keys(d[1..]) by {
        assert forall i :: 0 < i < |d| ==> Keys(d)[i] == Keys(d[1..])[i - 1];
      }
      RemoveOne(d[1..], k);
    }
  }

  /** The entries of `d` whose keys are not among `ks`, in order. */
  function Without<V>(d: Dict<V>, ks: seq<string>): Dict<V> {
    if d == [] then []
    else if d[0].0 in ks then Without(d[1..], ks)
    else [d[0]] + Without(d[1..], ks)
  }

  /** Leaving out the keys `ks` hides exactly those keys. */
  lemma {:induction false} WithoutGet<V>(d: Dict<V>, ks: seq<string>, k: string)
    ensures Get(Without(d, ks), k) == if k in ks then None else Get(d, k)
  {
    if d != [] {
      WithoutGet(d[1..], ks, k);
      if d[0].0 !in ks {
        assert ([d[0]] + Without(d[1..], ks))[1..] == Without(d[1..], ks);
      }
    }
  }

  /** Assigning keeps the keys in place and appends a new key at the end. */
  lemma {:induction false} PutKeys<V>(d: Dict<V>, k: string, v: V)
    ensures Keys(Put(d, k, v)) == if k in Keys(d) then Keys(d) else Keys(d) + [k]
  {
    if d != [] && d[0].0 != k {
      PutKeys(d[1..], k, v);
      assert k in Keys(d) <==> k in Keys(d[1..]);
    }
  }

  /** Assigning to a dictionary keeps it a dictionary. */
  lemma PutUnique<V>(d: Dict<V>, k: string, v: V)
    requires UniqueKeys(d)
    ensures UniqueKeys(Put(d, k, v))
  {
    PutKeys(d, k, v);
  }

  /** The keys of `ks` that are not in `existing`, in order. */
  function NewKeys(ks: seq<string>, existing: seq<string>): (r: seq<string>)
    ensures forall k :: k in r <==> k in ks && k !in existing
  {
    if ks == [] then []
    else if ks[0] in existing then NewKeys(ks[1..], existing)
    else [ks[0]] + NewKeys(ks[1..], existing)
  }

  /** `existing.update(data)`: each entry of `data`, in order, assigned with `Put`. */
  function Update<V>(existing: Dict<V>, data: Dict<V>): Dict<V>
    decreases data
  {
    if data == [] then existing
    else Update(Put(existing, data[0].0, data[0].1), data[1..])
  }

  /** After `existing.update(data)`, data's values win on shared keys and every other key keeps its value. */
  lemma {:induction false} UpdateGet<V>(existing: Dict<V>, data: Dict<V>, k: string)
    decreases data
    requires UniqueKeys(data)
    ensures Get(Update(existing, data), k) == if k in Keys(data) then Get(data, k) else Get(existing, k)
  {
    if data != [] {
      UpdateGet(Put(existing, data[0].0, data[0].1), data[1..], k);
    }
  }

  /** The keys after `existing.update(data)`: the existing ones in their old order, then data's new ones in data's order. */
  lemma UpdateKeys<V>(existing: Dict<V>, data: Dict<V>)
    requires UniqueKeys(data)
    ensures Keys(Update(existing, data)) == Keys(existing) + NewKeys(Keys(data), Keys(existing))
  {
    UpdateKeysFold(existing, data);
    AssignKeysAppend(Keys(existing), Keys(data));
  }

  /** The keys after assigning each of `ks` in turn, starting from the keys `existing`. */
  function AssignKeys(existing: seq<string>, ks: seq<string>): seq<string>
    decreases ks
  {
    if ks == [] then existing
    else AssignKeys(if ks[0] in existing then existing else existing + [ks[0]], ks[1..])
  }

  lemma {:induction false} UpdateKeysFold<V>(existing: Dict<V>, data: Dict<V>)
    decreases data
    ensures Keys(Update(existing, data)) == AssignKeys(Keys(existing), Keys(data))
  {
    if data != [] {
      UpdateKeysFold(Put(existing, data[0].0, data[0].1), data[1..]);
      PutKeys(existing, data[0].0, data[0].1);
      assert Keys(data)[0] == data[0].0 && Keys(data)[1..] == Keys(data[1..]);
    }
  }

  lemma {:induction false} AssignKeysAppend(existing: seq<string>, ks: seq<string>)
    decreases ks
    requires Distinct(ks)
    ensures AssignKeys(existing, ks) == existing + NewKeys(ks, existing)
  {
    if ks != [] {
      var k := ks[0];
      assert Distinct(ks[1..]) && k !in ks[1..] by {
        assert forall i :: 0 <= i < |ks| - 1 ==> ks[1..][i] == ks[i + 1];
      }
      if k in existing {
        AssignKeysAppend(existing, ks[1..]);
      } else {
        AssignKeysAppend(existing + [k], ks[1..]);
        NewKeysSkip(ks[1..], existing, k);
        var rest := NewKeys(ks[1..], existing);
        assert existing + [k] + rest == existing + ([k] + rest);
      }
    }
  }

  /** Excluding a key that does not occur in `ks` changes nothing. */
  lemma {:induction false} NewKeysSkip(ks: seq<string>, existing: seq<string>, k: string)
    requires k !in ks
    ensures NewKeys(ks, existing + [k]) == NewKeys(ks, existing)
  {
    if ks != [] {
      assert ks[0] in existing + [k] <==> ks[0] in existing;
      NewKeysSkip(ks[1..], existing, k);
    }
  }

  /** `existing.update(data)` is still a dictionary. */
  lemma {:induction false} UpdateUnique<V>(existing: Dict<V>, data: Dict<V>)
    decreases data
    requires UniqueKeys(existing)
    ensures UniqueKeys(Update(existing, data))
  {
    if data != [] {
      PutUnique(existing, data[0].0, data[0].1);
      UpdateUnique(Put(existing, data[0].0, data[0].1), data[1..]);
    }
  }
}
