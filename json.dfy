/**
 * JSON-like Python values as the serialisation code sees them, and
 * `CategoryDataOrchestrator.convert_sets_to_lists`, which rewrites a dict
 * in place so that `json.dump` accepts it.
 */
module Json {
  import Dicts

  datatype Value =
    | Null
    | Bool(b: bool)
    | Int(i: int)
    | Str(s: string)
    | List(items: seq<Value>)
    | Set(elems: set<Value>)
    | Dict(entries: Dicts.Dict<Value>)

  /** `items` is a `list(s)`: every element of `s` exactly once, in some order. */
  ghost predicate ListOf(items: seq<Value>, s: set<Value>) {
    && (forall i, j :: 0 <= i < j < |items| ==> items[i] != items[j])
    && (forall x :: x in items <==> x in s)
  }

  /**
   * `after` is what `convert_sets_to_lists` leaves in a dict slot that held
   * `before`: a set becomes a list of its elements, a dict is converted entry
   * by entry with its keys in place, and anything else (a list included,
   * whatever it contains) is left as it is.
   */
  ghost predicate Converted(before: Value, after: Value)
    decreases before
  {
    match before
    case Set(s) => after.List? && ListOf(after.items, s)
    case Dict(e) =>
      && after.Dict?
      && |after.entries| == |e|
      && forall i :: 0 <= i < |e| ==>
           after.entries[i].0 == e[i].0 && Converted(e[i].1, after.entries[i].1)
    case _ => after == before
  }

  /** No set can be reached from `v` by going through dicts only. */
  ghost predicate NoSetThroughDicts(v: Value)
    decreases v
  {
    match v
    case Set(_) => false
    case Dict(e) => forall i :: 0 <= i < |e| ==> NoSetThroughDicts(e[i].1)
    case _ => true
  }

  /** Conversion leaves no set reachable through nested dicts. */
  lemma {:induction false} ConvertedHasNoSets(before: Value, after: Value)
    requires Converted(before, after)
    ensures NoSetThroughDicts(after)
    decreases before
  {
    match before
    case Set(_) =>
    case Dict(e) =>
      forall i | 0 <= i < |e| ensures NoSetThroughDicts(after.entries[i].1) {
        ConvertedHasNoSets(e[i].1, after.entries[i].1);
      }
    case _ =>
  }

  /** A value without sets reachable through dicts can only be converted to itself. */
  lemma {:induction false} ConvertedSetFreeIsIdentity(before: Value, after: Value)
    requires NoSetThroughDicts(before) && Converted(before, after)
    ensures after == before
    decreases before
  {
    match before
    case Dict(e) =>
      forall i | 0 <= i < |e| ensures after.entries[i] == e[i] {
        ConvertedSetFreeIsIdentity(e[i].1, after.entries[i].1);
      }
      assert after.entries == e;
    case _ =>
  }

  /** Converting an already converted value changes nothing. */
  lemma ConvertIdempotent(before: Value, once: Value, twice: Value)
    requires Converted(before, once) && Converted(once, twice)
    ensures twice == once
  {
    ConvertedHasNoSets(before, once);
    ConvertedSetFreeIsIdentity(once, twice);
  }

  /** A converted list of a set is as long as the set is large. */
  lemma {:induction false} ListOfSize(items: seq<Value>, s: set<Value>)
    requires ListOf(items, s)
    ensures |items| == |s|
    decreases items
  {
    if items != [] {
      var x := items[|items| - 1];
      var init := items[..|items| - 1];
      assert x !in init;
      assert ListOf(init, s - {x}) by {
        forall y ensures y in init <==> y in s - {x} {
          assert y in items <==> y in init || y == x;
        }
      }
      ListOfSize(init, s - {x});
    }
  }

  /** Conversion keeps a dict's keys, in order. */
  lemma ConvertedKeepsKeys(before: Dicts.Dict<Value>, after: Dicts.Dict<Value>)
    requires Converted(Dict(before), Dict(after))
    ensures Dicts.Keys(after) == Dicts.Keys(before)
  {
  }

  /** The value under a key after conversion is the conversion of the value before. */
  lemma {:induction false} ConvertedGet(before: Dicts.Dict<Value>, after: Dicts.Dict<Value>, k: string)
    requires Converted(Dict(before), Dict(after))
    ensures Dicts.Get(after, k).Some? <==> Dicts.Get(before, k).Some?
    ensures Dicts.Get(before, k).Some? ==> Converted(Dicts.Get(before, k).value, Dicts.Get(after, k).value)
  {
    if before != [] && before[0].0 != k {
      assert Converted(Dict(before[1..]), Dict(after[1..])) by {
        forall i | 0 <= i < |before| - 1
          ensures after[1..][i].0 == before[1..][i].0 && Converted(before[1..][i].1, after[1..][i].1)
        {
          assert before[1..][i] == before[i + 1] && after[1..][i] == after[i + 1];
        }
      }
      ConvertedGet(before[1..], after[1..], k);
    }
  }

  /** Deleting a key after conversion is converting after deleting it. */
  lemma {:induction false} ConvertedRemove(before: Dicts.Dict<Value>, after: Dicts.Dict<Value>, k: string)
    requires Converted(Dict(before), Dict(after))
    ensures Converted(Dict(Dicts.Remove(before, k)), Dict(Dicts.Remove(after, k)))
  {
    if before != [] {
      assert Converted(Dict(before[1..]), Dict(after[1..])) by {
        forall i | 0 <= i < |before| - 1
          ensures after[1..][i].0 == before[1..][i].0 && Converted(before[1..][i].1, after[1..][i].1)
        {
          assert before[1..][i] == before[i + 1] && after[1..][i] == after[i + 1];
        }
      }
      ConvertedRemove(before[1..], after[1..], k);
      if before[0].0 != k {
        var b := Dicts.Remove(before[1..], k);
        var a := Dicts.Remove(after[1..], k);
        assert Dicts.Remove(before, k) == [before[0]] + b;
        assert Dicts.Remove(after, k) == [after[0]] + a;
        assert Converted(before[0].1, after[0].1);
        forall i | 0 <= i < |b| + 1
          ensures ([after[0]] + a)[i].0 == ([before[0]] + b)[i].0
          ensures Converted(([before[0]] + b)[i].1, ([after[0]] + a)[i].1)
        {
          if i > 0 {
            assert ([before[0]] + b)[i] == b[i - 1] && ([after[0]] + a)[i] == a[i - 1];
          }
        }
      }
    }
  }

  /** A Python dict object whose entries are updated in place. */
  class JsonDict {
    var entries: Dicts.Dict<Value>

    constructor (entries: Dicts.Dict<Value>)
      ensures this.entries == entries
    {
      this.entries := entries;
    }
  }

  /** `list(s)`: the elements of the set, in the order iteration yields them. */
  method SetToList(s: set<Value>) returns (items: seq<Value>)
    ensures ListOf(items, s)
  {
    items := [];
    var rest := s;
    while rest != {}
      invariant rest <= s
      invariant forall i, j :: 0 <= i < j < |items| ==> items[i] != items[j]
      invariant forall x :: x in items <==> x in s - rest
      decreases rest
    {
      var x :| x in rest;
      assert x !in items;
      items := items + [x];
      rest := rest - {x};
    }
  }

  /**
   * `convert_sets_to_lists(d)`: every slot of `d` is rewritten in place and
   * `d` itself is returned.
   */
  method ConvertSetsToLists(d: JsonDict) returns (r: JsonDict)
    modifies d
    ensures r == d
    ensures Converted(Dict(old(d.entries)), Dict(d.entries))
    decreases Dict(d.entries)
  {
    var i := 0;
    while i < |d.entries|
      invariant 0 <= i <= |d.entries| == |old(d.entries)|
      invariant forall j :: 0 <= j < |d.entries| ==> d.entries[j].0 == old(d.entries)[j].0
      invariant forall j :: 0 <= j < i ==> Converted(old(d.entries)[j].1, d.entries[j].1)
      invariant d.entries[i..] == old(d.entries)[i..]
    {
      var (key, value) := d.entries[i];
      assert d.entries[i] == old(d.entries)[i];
      match value {
        case Set(s) =>
          var items := SetToList(s);
          d.entries := d.entries[i := (key, List(items))];
        case List(_) =>
        case Dict(e) =>
          var inner := new JsonDict(e);
          var _ := ConvertSetsToLists(inner);
          d.entries := d.entries[i := (key, Dict(inner.entries))];
        case _ =>
      }
      i := i + 1;
    }
    r := d;
  }
}
