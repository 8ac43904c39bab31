/**
 * The output-shaping half of `CategoryDataOrchestrator`: URL slugs for the
 * categories, cleaning of the per-category dicts, flattening to lists, and
 * the merge with an existing output file in extend mode.
 */
module CategoryOutput {
  import opened Wrappers
  import Dicts
  import opened Json
  import Slugs

  /** A `CategoryInfo` object, as the dict of its attributes. */
  type CategoryInfo = Dicts.Dict<Value>

  /** The attributes `_clean_category_data` asks `to_dict` to leave out. */
  const ExcludedKeys: seq<string> := ["files", "faculty", "departments", "titles"]

  /** `category_info.to_dict(exclude_keys=ExcludedKeys)`: the attributes without the excluded ones. */
  function ToDict(info: CategoryInfo): Dicts.Dict<Value> {
    Dicts.Without(info, ExcludedKeys)
  }

  /** `list(d.values())`: one element per entry, in insertion order. */
  function FlattenToList<V>(d: Dicts.Dict<V>): (r: seq<V>)
    ensures |r| == |d|
    ensures forall i :: 0 <= i < |d| ==> r[i] == d[i].1
  {
    if d == [] then [] else [d[0].1] + FlattenToList(d[1..])
  }

  /** The number of entries of all the inner dicts together. */
  ghost function TotalSize<V>(data: Dicts.Dict<Dicts.Dict<V>>): nat {
    if data == [] then 0 else |data[0].1| + TotalSize(data[1..])
  }

  /**
   * The comprehension in `serialize_and_save_faculty_stats`: every inner
   * dict's values, category after category.
   */
  function FlattenFacultyStats<V>(data: Dicts.Dict<Dicts.Dict<V>>): (r: seq<V>)
    ensures |r| == TotalSize(data)
  {
    if data == [] then [] else FlattenToList(data[0].1) + FlattenFacultyStats(data[1..])
  }

  /**
   * The `j`-th entry of the `c`-th category lands right after the entries of
   * the categories before it.
   */
  lemma {:induction false} FlattenFacultyStatsAt<V>(data: Dicts.Dict<Dicts.Dict<V>>, c: int, j: int)
    requires 0 <= c < |data| && 0 <= j < |data[c].1|
    ensures TotalSize(data[..c]) + j < |FlattenFacultyStats(data)|
    ensures FlattenFacultyStats(data)[TotalSize(data[..c]) + j] == data[c].1[j].1
  {
    if c == 0 {
      assert data[..0] == [];
    } else {
      FlattenFacultyStatsAt(data[1..], c - 1, j);
      assert data[1..][..c - 1] == data[..c][1..];
      assert data[1..][c - 1] == data[c];
    }
  }

  /**
   * Is `data` something `dict.update` takes: a mapping, or one of the
   * iterables of pairs that `Value` can hold and that are certainly pair
   * sequences, namely an empty string or an empty set?
   */
  predicate UpdateAccepts(data: Value) {
    data.Dict? || data == Str([]) || data == Set({})
  }

  /** Does `ExtendMerge` fail on these operands? */
  predicate MergeFails(existing: Value, data: Value) {
    if data.List? then !existing.List? else !(existing.Dict? && UpdateAccepts(data))
  }

  /**
   * The extend branch of `_write_to_json`: `existing.extend(data)` for a list,
   * `existing.update(data)` for anything else, with the errors Python raises
   * when `existing` lacks the method or `data` is not a sequence of pairs.
   * `existing` comes from `json.load`, which never yields a set.
   */
  function ExtendMerge(existing: Value, data: Value): (r: Result<Value, PyError>)
    requires !existing.Set?
    ensures r.Err? <==> MergeFails(existing, data)
    ensures data.List? && existing.List? ==>
              && r.Ok? && r.value.List?
              && |r.value.items| == |existing.items| + |data.items|
              && r.value.items[..|existing.items|] == existing.items
              && r.value.items[|existing.items|..] == data.items
    ensures r.Ok? && data.Dict? ==> r.value.Dict?
    ensures r.Ok? && !data.List? && !data.Dict? ==> r.value == existing
    ensures data.Str? && data.s != [] && existing.Dict? ==> r == Err(ValueError(UpdateElementLength))
  {
    if data.List? then
      if existing.List? then Ok(List(existing.items + data.items)) else Err(AttributeError("extend"))
    else if !existing.Dict? then Err(AttributeError("update"))
    else if data.Dict? then Ok(Dict(Dicts.Update(existing.entries, data.entries)))
    else if data == Str([]) || data == Set({}) then Ok(existing)
    else if data.Str? then Err(ValueError(UpdateElementLength))
    else Err(TypeError)
  }

  /** What `dict.update` reports for a string: its first element, one character, is no pair. */
  const UpdateElementLength: string := "dictionary update sequence element #0 has length 1; 2 is required"

  /** Merging dicts: data's values win on shared keys, every other existing key is kept. */
  lemma ExtendMergeDictGet(existing: Value, data: Value, k: string)
    requires existing.Dict? && data.Dict? && Dicts.UniqueKeys(data.entries)
    ensures ExtendMerge(existing, data).Ok?
    ensures Dicts.Get(ExtendMerge(existing, data).value.entries, k)
         == if k in Dicts.Keys(data.entries) then Dicts.Get(data.entries, k) else Dicts.Get(existing.entries, k)
  {
    Dicts.UpdateGet(existing.entries, data.entries, k);
  }

  /** Merging dicts keeps the existing keys in place and appends data's new keys in order. */
  lemma ExtendMergeDictKeys(existing: Value, data: Value)
    requires existing.Dict? && data.Dict? && Dicts.UniqueKeys(data.entries)
    ensures ExtendMerge(existing, data).Ok?
    ensures Dicts.Keys(ExtendMerge(existing, data).value.entries)
         == Dicts.Keys(existing.entries) + Dicts.NewKeys(Dicts.Keys(data.entries), Dicts.Keys(existing.entries))
  {
    Dicts.UpdateKeys(existing.entries, data.entries);
  }

  /** Merging into a real dict gives a real dict. */
  lemma ExtendMergeDictUnique(existing: Value, data: Value)
    requires existing.Dict? && data.Dict? && Dicts.UniqueKeys(existing.entries)
    ensures ExtendMerge(existing, data).Ok?
    ensures Dicts.UniqueKeys(ExtendMerge(existing, data).value.entries)
  {
    Dicts.UpdateUnique(existing.entries, data.entries);
  }

  /** The list `_write_to_json` receives: each flattened dict as a JSON value. */
  function AsDicts(ds: seq<Dicts.Dict<Value>>): (r: seq<Value>)
    ensures |r| == |ds|
    ensures forall i :: 0 <= i < |ds| ==> r[i] == Dict(ds[i])
  {
    if ds == [] then [] else [Dict(ds[0])] + AsDicts(ds[1..])
  }

  /** A category's attributes once `addUrl` has set its `url`. */
  function WithUrl(category: string, info: CategoryInfo): CategoryInfo {
    Dicts.Put(info, "url", Str(Slugs.Slugify(category)))
  }

  /** `after` is a category's `to_dict` output after `convert_sets_to_lists`. */
  ghost predicate ConvertedEntry(before: (string, CategoryInfo), after: (string, Dicts.Dict<Value>)) {
    after.0 == before.0 && Converted(Dict(ToDict(before.1)), Dict(after.1))
  }

  /**
   * `after` is what `_clean_category_data` returns for the category `before`,
   * which had a `tc_list` to delete.
   */
  ghost predicate CleanedEntry(before: (string, CategoryInfo), after: (string, Dicts.Dict<Value>)) {
    && after.0 == before.0
    && "tc_list" in Dicts.Keys(ToDict(before.1))
    && "tc_list" !in Dicts.Keys(after.1)
    && Converted(Dict(Dicts.Remove(ToDict(before.1), "tc_list")), Dict(after.1))
  }

  /** Category by category, `after` holds the converted `to_dict` outputs of `before`. */
  ghost predicate AllConverted(before: Dicts.Dict<CategoryInfo>, after: Dicts.Dict<Dicts.Dict<Value>>)
    decreases |before|
  {
    && |after| == |before|
    && (before != [] ==>
          && ConvertedEntry(before[|before| - 1], after[|after| - 1])
          && AllConverted(before[..|before| - 1], after[..|after| - 1]))
  }

  lemma AllConvertedSnoc(data: Dicts.Dict<CategoryInfo>, i: int, after: Dicts.Dict<Dicts.Dict<Value>>, y: (string, Dicts.Dict<Value>))
    requires 0 <= i < |data|
    requires AllConverted(data[..i], after) && ConvertedEntry(data[i], y)
    ensures AllConverted(data[..i + 1], after + [y])
  {
    assert data[..i + 1][..i] == data[..i];
    assert (after + [y])[..i] == after;
  }

  lemma {:induction false} AllConvertedAt(before: Dicts.Dict<CategoryInfo>, after: Dicts.Dict<Dicts.Dict<Value>>, j: int)
    requires AllConverted(before, after) && 0 <= j < |before|
    ensures ConvertedEntry(before[j], after[j])
    decreases |before|
  {
    if j < |before| - 1 {
      AllConvertedAt(before[..|before| - 1], after[..|after| - 1], j);
    }
  }

  /** Category by category, `after` holds what `_clean_category_data` makes of `before`. */
  ghost predicate AllCleaned(before: Dicts.Dict<CategoryInfo>, after: Dicts.Dict<Dicts.Dict<Value>>)
    decreases |before|
  {
    && |after| == |before|
    && (before != [] ==>
          && CleanedEntry(before[|before| - 1], after[|after| - 1])
          && AllCleaned(before[..|before| - 1], after[..|after| - 1]))
  }

  lemma AllCleanedSnoc(data: Dicts.Dict<CategoryInfo>, i: int, after: Dicts.Dict<Dicts.Dict<Value>>, y: (string, Dicts.Dict<Value>))
    requires 0 <= i < |data|
    requires AllCleaned(data[..i], after) && CleanedEntry(data[i], y)
    ensures AllCleaned(data[..i + 1], after + [y])
  {
    assert data[..i + 1][..i] == data[..i];
    assert (after + [y])[..i] == after;
  }

  lemma {:induction false} AllCleanedAt(before: Dicts.Dict<CategoryInfo>, after: Dicts.Dict<Dicts.Dict<Value>>, j: int)
    requires AllCleaned(before, after) && 0 <= j < |before|
    ensures CleanedEntry(before[j], after[j])
    decreases |before|
  {
    if j < |before| - 1 {
      AllCleanedAt(before[..|before| - 1], after[..|after| - 1], j);
    }
  }

  /** What `AllCleaned` says about each category. */
  lemma AllCleanedFacts(before: Dicts.Dict<CategoryInfo>, after: Dicts.Dict<Dicts.Dict<Value>>)
    requires AllCleaned(before, after)
    ensures Dicts.Keys(after) == Dicts.Keys(before)
    ensures forall i :: 0 <= i < |before| ==> "tc_list" in Dicts.Keys(ToDict(before[i].1))
    ensures forall i :: 0 <= i < |before| ==> CleanedEntry(before[i], after[i])
  {
    forall i | 0 <= i < |before| ensures CleanedEntry(before[i], after[i]) {
      AllCleanedAt(before, after, i);
    }
    Dicts.SameKeys(after, before);
  }

  /** Deleting `tc_list` from a converted entry: it is there exactly when `to_dict` kept it. */
  lemma DeleteAfterConvert(before: (string, CategoryInfo), after: (string, Dicts.Dict<Value>))
    requires ConvertedEntry(before, after)
    ensures "tc_list" in Dicts.Keys(after.1) <==> "tc_list" in Dicts.Keys(ToDict(before.1))
    ensures "tc_list" in Dicts.Keys(after.1) ==> CleanedEntry(before, (after.0, Dicts.Remove(after.1, "tc_list")))
  {
    ConvertedKeepsKeys(ToDict(before.1), after.1);
    ConvertedRemove(ToDict(before.1), after.1, "tc_list");
  }

  /** Setting `url` does not change whether `to_dict` keeps a `tc_list`. */
  lemma TcListAfterUrl(category: string, info: CategoryInfo)
    ensures "tc_list" in Dicts.Keys(ToDict(WithUrl(category, info))) <==> "tc_list" in Dicts.Keys(ToDict(info))
  {
    Dicts.WithoutGet(WithUrl(category, info), ExcludedKeys, "tc_list");
    Dicts.WithoutGet(info, ExcludedKeys, "tc_list");
  }

  /** `to_dict` keeps the `url` attribute. */
  lemma UrlNotExcluded()
    ensures "url" !in ExcludedKeys
  {
    assert |"url"| == 3;
    assert forall k :: k in ExcludedKeys ==> |k| != 3;
  }

  /** The `url` set by `addUrl` survives cleaning unchanged. */
  lemma UrlAfterCleaning(category: string, info: CategoryInfo, after: (string, Dicts.Dict<Value>))
    requires CleanedEntry((category, WithUrl(category, info)), after)
    ensures Dicts.Get(after.1, "url") == Some(Str(Slugs.Slugify(category)))
  {
    var withUrl := WithUrl(category, info);
    var kept := Dicts.Remove(ToDict(withUrl), "tc_list");
    Dicts.WithoutGet(withUrl, ExcludedKeys, "url");
    UrlNotExcluded();
    assert Dicts.Get(withUrl, "url") == Some(Str(Slugs.Slugify(category)));
    assert Dicts.Get(kept, "url") == Dicts.Get(ToDict(withUrl), "url");
    ConvertedGet(kept, after.1, "url");
  }

  /**
   * `items` is what `serialize_and_save_data` writes for `categories`: one
   * dict per category, in order, each the category's cleaned `to_dict` output
   * once `addUrl` has run, so with the category's slug as `url` and without
   * `tc_list`.
   */
  ghost predicate SavedCategories(items: seq<Value>, categories: Dicts.Dict<CategoryInfo>) {
    && |items| == |categories|
    && forall i :: 0 <= i < |categories| ==>
         && items[i].Dict?
         && CleanedEntry((categories[i].0, WithUrl(categories[i].0, categories[i].1)), (categories[i].0, items[i].entries))
         && Dicts.Get(items[i].entries, "url") == Some(Str(Slugs.Slugify(categories[i].0)))
         && "tc_list" !in Dicts.Keys(items[i].entries)
  }

  /** One category's cleaned dict, once `addUrl` has run, is saved with its slug and without `tc_list`. */
  lemma SavedEntry(category: string, info: CategoryInfo, withUrl: (string, CategoryInfo), after: (string, Dicts.Dict<Value>))
    requires withUrl == (category, WithUrl(category, info)) && CleanedEntry(withUrl, after)
    ensures Dicts.Get(after.1, "url") == Some(Str(Slugs.Slugify(category)))
    ensures "tc_list" !in Dicts.Keys(after.1)
  {
    UrlAfterCleaning(category, info, after);
  }

  /** Cleaning the categories once `addUrl` has run leaves each with its slug as `url` and without `tc_list`. */
  lemma CleanedAreSaved(before: Dicts.Dict<CategoryInfo>, withUrls: Dicts.Dict<CategoryInfo>, cleaned: Dicts.Dict<Dicts.Dict<Value>>)
    requires |withUrls| == |before| == |cleaned|
    requires forall i :: 0 <= i < |before| ==> withUrls[i] == (before[i].0, WithUrl(before[i].0, before[i].1))
    requires forall i :: 0 <= i < |before| ==> CleanedEntry(withUrls[i], cleaned[i])
    ensures forall i :: 0 <= i < |before| ==>
              && cleaned[i] == (before[i].0, cleaned[i].1)
              && CleanedEntry((before[i].0, WithUrl(before[i].0, before[i].1)), cleaned[i])
              && Dicts.Get(cleaned[i].1, "url") == Some(Str(Slugs.Slugify(before[i].0)))
              && "tc_list" !in Dicts.Keys(cleaned[i].1)
  {
    forall i | 0 <= i < |before|
      ensures && cleaned[i] == (before[i].0, cleaned[i].1)
              && CleanedEntry((before[i].0, WithUrl(before[i].0, before[i].1)), cleaned[i])
              && Dicts.Get(cleaned[i].1, "url") == Some(Str(Slugs.Slugify(before[i].0)))
              && "tc_list" !in Dicts.Keys(cleaned[i].1)
    {
      SavedEntry(before[i].0, before[i].1, withUrls[i], cleaned[i]);
    }
  }

  /** Flattening such dicts gives what is saved for the categories. */
  lemma FlattenedAreSaved(before: Dicts.Dict<CategoryInfo>, cleaned: Dicts.Dict<Dicts.Dict<Value>>)
    requires |cleaned| == |before|
    requires forall i :: 0 <= i < |before| ==>
               && cleaned[i] == (before[i].0, cleaned[i].1)
               && CleanedEntry((before[i].0, WithUrl(before[i].0, before[i].1)), cleaned[i])
               && Dicts.Get(cleaned[i].1, "url") == Some(Str(Slugs.Slugify(before[i].0)))
               && "tc_list" !in Dicts.Keys(cleaned[i].1)
    ensures SavedCategories(AsDicts(FlattenToList(cleaned)), before)
  {
  }

  class CategoryDataOrchestrator {
    /** What `_get_category_data` returns: each category name with its `CategoryInfo`. */
    var categoryData: Dicts.Dict<CategoryInfo>
    /** Whether output files are extended rather than overwritten. */
    const extend: bool

    constructor (categoryData: Dicts.Dict<CategoryInfo>, extend: bool)
      ensures this.categoryData == categoryData && this.extend == extend
    {
      this.categoryData := categoryData;
      this.extend := extend;
    }

    /**
     * `addUrl`: every category's `url` attribute becomes the slug of its name;
     * the categories and their other attributes stay as they are.
     */
    method AddUrl()
      modifies this
      ensures Dicts.Keys(categoryData) == Dicts.Keys(old(categoryData))
      ensures forall i :: 0 <= i < |categoryData| ==>
                categoryData[i].1 == WithUrl(old(categoryData)[i].0, old(categoryData)[i].1)
    {
      var data := categoryData;
      var updated: Dicts.Dict<CategoryInfo> := [];
      var i := 0;
      while i < |data|
        invariant 0 <= i <= |data|
        invariant |updated| == i
        invariant forall j :: 0 <= j < i ==> updated[j] == (data[j].0, WithUrl(data[j].0, data[j].1))
      {
        var (category, values) := data[i];
        updated := updated + [(category, WithUrl(category, values))];
        i := i + 1;
      }
      Dicts.SameKeys(updated, data);
      categoryData := updated;
    }

    /**
     * The dict comprehension of `_clean_category_data`: every category's
     * `to_dict` output passed through `convert_sets_to_lists`.
     */
    method ConvertCategories(data: Dicts.Dict<CategoryInfo>) returns (converted: Dicts.Dict<Dicts.Dict<Value>>)
      ensures AllConverted(data, converted)
    {
      converted := [];
      var i := 0;
      while i < |data|
        invariant 0 <= i <= |data|
        invariant AllConverted(data[..i], converted)
      {
        var (category, info) := data[i];
        var d := new JsonDict(ToDict(info));
        var c := ConvertSetsToLists(d);
        AllConvertedSnoc(data, i, converted, (category, c.entries));
        converted := converted + [(category, c.entries)];
        i := i + 1;
      }
      assert data[..i] == data;
    }

    /**
     * The loop of `_clean_category_data` that deletes `tc_list` from every
     * converted dict, in order, raising KeyError at the first one without it.
     */
    method DeleteTcLists(data: Dicts.Dict<CategoryInfo>, converted: Dicts.Dict<Dicts.Dict<Value>>)
      returns (r: Result<Dicts.Dict<Dicts.Dict<Value>>, PyError>)
      requires AllConverted(data, converted)
      ensures r.Ok? ==> AllCleaned(data, r.value)
      ensures r.Err? ==> r.error == KeyError("tc_list")
      ensures r.Err? ==> exists i :: 0 <= i < |data| && "tc_list" !in Dicts.Keys(ToDict(data[i].1))
    {
      var cleaned: Dicts.Dict<Dicts.Dict<Value>> := [];
      var i := 0;
      while i < |converted|
        invariant 0 <= i <= |converted| == |data|
        invariant AllCleaned(data[..i], cleaned)
      {
        AllConvertedAt(data, converted, i);
        DeleteAfterConvert(data[i], converted[i]);
        if "tc_list" !in Dicts.Keys(converted[i].1) {
          return Err(KeyError("tc_list"));
        }
        var entry := (converted[i].0, Dicts.Remove(converted[i].1, "tc_list"));
        AllCleanedSnoc(data, i, cleaned, entry);
        cleaned := cleaned + [entry];
        i := i + 1;
      }
      assert data[..i] == data;
      r := Ok(cleaned);
    }

    /**
     * `_clean_category_data`: each category's `to_dict` output with its sets
     * turned into lists, then `tc_list` deleted from every one of them; the
     * deletion raises KeyError at the first category without a `tc_list`.
     */
    method CleanCategoryData(data: Dicts.Dict<CategoryInfo>) returns (r: Result<Dicts.Dict<Dicts.Dict<Value>>, PyError>)
      ensures r.Ok? <==> forall i :: 0 <= i < |data| ==> "tc_list" in Dicts.Keys(ToDict(data[i].1))
      ensures r.Err? ==> r.error == KeyError("tc_list")
      ensures r.Ok? ==> Dicts.Keys(r.value) == Dicts.Keys(data)
      ensures r.Ok? ==> forall i :: 0 <= i < |data| ==> CleanedEntry(data[i], r.value[i])
    {
      var converted := ConvertCategories(data);
      r := DeleteTcLists(data, converted);
      if r.Ok? {
        AllCleanedFacts(data, r.value);
      }
    }

    /**
     * `_write_to_json` without the file access: what is dumped, given the
     * output file's current content `existing` (read only in extend mode).
     */
    method WriteToJson(data: Value, existing: Value) returns (written: Result<Value, PyError>)
      requires extend ==> !existing.Set?
      ensures !extend ==> written == Ok(data)
      ensures extend ==> written == ExtendMerge(existing, data)
    {
      if extend {
        written := ExtendMerge(existing, data);
      } else {
        written := Ok(data);
      }
    }

    /**
     * `serialize_and_save_data`: add the URLs, clean, flatten and write. The
     * file receives one dict per category, in order: its cleaned `to_dict`
     * output, carrying the category's slug as `url` and no `tc_list`. In extend mode they follow the list the
     * file held, and a file holding anything but a list makes `extend` fail.
     */
    method SerializeAndSaveData(existing: Value) returns (written: Result<Value, PyError>)
      requires extend ==> !existing.Set?
      modifies this
      ensures Dicts.Keys(categoryData) == Dicts.Keys(old(categoryData))
      ensures forall i :: 0 <= i < |categoryData| ==>
                categoryData[i].1 == WithUrl(old(categoryData)[i].0, old(categoryData)[i].1)
      ensures written.Ok? <==>
                && (forall i :: 0 <= i < |old(categoryData)| ==> "tc_list" in Dicts.Keys(ToDict(old(categoryData)[i].1)))
                && (extend ==> existing.List?)
      ensures written.Err? ==>
                written.error == if forall i :: 0 <= i < |old(categoryData)| ==> "tc_list" in Dicts.Keys(ToDict(old(categoryData)[i].1))
                                 then AttributeError("extend") else KeyError("tc_list")
      ensures written.Ok? ==>
                var offset := if extend then |existing.items| else 0;
                && written.value.List?
                && offset <= |written.value.items|
                && written.value.items[..offset] == (if extend then existing.items else [])
                && SavedCategories(written.value.items[offset..], old(categoryData))
    {
      ghost var before := categoryData;
      AddUrl();
      forall i | 0 <= i < |before|
        ensures "tc_list" in Dicts.Keys(ToDict(categoryData[i].1)) <==> "tc_list" in Dicts.Keys(ToDict(before[i].1))
      {
        TcListAfterUrl(before[i].0, before[i].1);
      }
      var cleaned := CleanCategoryData(categoryData);
      if cleaned.Err? {
        return Err(cleaned.error);
      }
      var flattened := AsDicts(FlattenToList(cleaned.value));
      CleanedAreSaved(before, categoryData, cleaned.value);
      FlattenedAreSaved(before, cleaned.value);
      written := WriteToJson(List(flattened), existing);
      if written.Ok? {
        var offset := if extend then |existing.items| else 0;
        assert written.value.items[offset..] == flattened;
      }
    }
  }
}
