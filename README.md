# academic_metrics output core in Dafny

This project models three pieces of the academic_metrics pipeline and proves
properties of them.

- **Category output** is the part of `CategoryDataOrchestrator` that turns the processed category data into the JSON written to disk:
  - `addUrl` gives every category a URL slug of its name;
  - `_clean_category_data` turns each category into a dict with sets converted to lists (`convert_sets_to_lists`) and its `tc_list` removed;
  - `_flatten_to_list` and the faculty-stats comprehension flatten the dicts to lists;
  - `_write_to_json` overwrites the output, or merges into it in extend mode;
  - `serialize_and_save_data` chains these steps.
- **DOI pre-filter** is the loop at the start of `PipelineRunner.run_pipeline`. It keeps the fetched articles that have a DOI the database does not hold yet, and counts the rest.
- **Dataclass registry** is `DataClassFactory`: a class-level map from dataclass type to dataclass. It offers a registering decorator, a lookup that instantiates the dataclass, and a membership test.

Modules:

- `Wrappers`: `Option`, `Result`, and the Python exceptions the code raises.
- `Dicts`: Python dicts as insertion-ordered entry lists.
  - Order matters here: `list(d.values())` and `dict.update` both follow it.
  - The module has `get`, assignment, `del` and `update`, together with their laws.
- `Json`: JSON-like values (`Value`), plus `convert_sets_to_lists` on a dict object updated in place.
- `Slugs`: the slug computation and its properties.
- `CategoryOutput`: the orchestrator's category data as a class whose field `addUrl` updates, and the serialisation steps.
- `Pipeline`: the DOI filter loop, and the functions that specify it.
- `Factories`: the registry as the class object's `registry` field, and the factory's instances.

Collaborators the model takes as inputs:

- `get_attributes` is a function parameter `getDoi` of `FilterNewArticles`.
- The existing DOIs are a `set<string>` parameter.
- The content of an existing output file is a `Value` parameter of `WriteToJson`.

## Model

| member | source | states |
|---|---|---|
| Slugs.Slugify | src/academic_metrics/main/category_data_orchestrator.py:251-258 | definition of the slug: lower-case, replace, collapse, strip; its properties are the lemma rows below |
| Slugs.Lower | src/academic_metrics/main/category_data_orchestrator.py:254 | definition of `category.lower()` on ASCII; `Slugs.LowerAt` states its properties |
| Slugs.ReplaceRuns | src/academic_metrics/main/category_data_orchestrator.py:251-254 | definition of `pattern.sub("-", …)`; `Slugs.ReplaceRunsChars` and `Slugs.ReplaceRunsOfUrlChars` state its properties |
| Slugs.CollapseHyphens | src/academic_metrics/main/category_data_orchestrator.py:256 | definition of `re.sub("-+", "-", …)`; `Slugs.CollapseHyphensShape` and `Slugs.CollapseOfSingleHyphens` state its properties |
| Slugs.TrimLeading | src/academic_metrics/main/category_data_orchestrator.py:258 | definition of `lstrip("-")`; `Slugs.TrimLeadingShape` states its properties |
| Slugs.TrimTrailing | src/academic_metrics/main/category_data_orchestrator.py:258 | definition of `rstrip("-")`; `Slugs.TrimTrailingShape` states its properties |
| Slugs.Strip | src/academic_metrics/main/category_data_orchestrator.py:258 | definition of `strip("-")`; `Slugs.StripShape` states its properties |
| Slugs.LowerChar | src/academic_metrics/main/category_data_orchestrator.py:254 | one character of `category.lower()` is never upper-case; an upper-case letter becomes a lower-case letter and any other character is kept |
| Slugs.LowerAt | src/academic_metrics/main/category_data_orchestrator.py:254 | `lower()` keeps the length and lower-cases each position in place |
| Slugs.ReplaceRunsChars | src/academic_metrics/main/category_data_orchestrator.py:251-254 | after `pattern.sub("-", …)` only `[A-Za-z0-9-]` remains, and only `[a-z0-9-]` when the input was lower-case |
| Slugs.CollapseHyphensShape | src/academic_metrics/main/category_data_orchestrator.py:256 | after `re.sub("-+", "-", …)` no two hyphens are adjacent and the slug alphabet is kept |
| Slugs.TrimLeadingShape | src/academic_metrics/main/category_data_orchestrator.py:258 | `lstrip("-")` leaves a suffix with no leading hyphen and removes only hyphens |
| Slugs.TrimTrailingShape | src/academic_metrics/main/category_data_orchestrator.py:258 | `rstrip("-")` leaves a prefix with no trailing hyphen and removes only hyphens |
| Slugs.StripShape | src/academic_metrics/main/category_data_orchestrator.py:258 | `strip("-")` keeps the character class and the single hyphens, and leaves no hyphen at either end |
| Slugs.SlugifyIsSlug | src/academic_metrics/main/category_data_orchestrator.py:251-258 | every slug consists of `[a-z0-9-]`, has no `--` and no hyphen at either end |
| Slugs.LowerOfLower | src/academic_metrics/main/category_data_orchestrator.py:254 | lower-casing a string without upper-case letters changes nothing |
| Slugs.ReplaceRunsOfUrlChars | src/academic_metrics/main/category_data_orchestrator.py:251-254 | replacing changes nothing in a string of allowed characters |
| Slugs.CollapseOfSingleHyphens | src/academic_metrics/main/category_data_orchestrator.py:256 | collapsing changes nothing when no hyphen follows a hyphen |
| Slugs.SlugIsFixpoint | src/academic_metrics/main/category_data_orchestrator.py:251-258 | a well-formed slug is its own slug |
| Slugs.SlugifyIdempotent | src/academic_metrics/main/category_data_orchestrator.py:251-258 | taking the slug of a slug returns it unchanged |
| Slugs.ReplaceThenCollapse | src/academic_metrics/main/category_data_orchestrator.py:254-256 | replacing and then collapsing equals turning every maximal run of non-alphanumerics into one hyphen |
| Slugs.SlugifyJoinsWords | src/academic_metrics/main/category_data_orchestrator.py:251-258 | the slug equals the lower-cased name's maximal alphanumeric words joined by single hyphens, an independent definition |
| Dicts.Put | src/academic_metrics/main/category_data_orchestrator.py:259 | after an assignment the key holds the new value and every other key keeps its value |
| Dicts.PutKeys | src/academic_metrics/main/category_data_orchestrator.py:259 | assigning keeps the key order and appends the key only if it is new |
| Dicts.Remove | src/academic_metrics/main/category_data_orchestrator.py:278 | `del d[k]` leaves `k` absent and every other key's value unchanged; the result is shorter when `k` was present |
| Dicts.RemoveAbsent | src/academic_metrics/main/category_data_orchestrator.py:278 | deleting an absent key changes nothing |
| Dicts.RemoveOne | src/academic_metrics/main/category_data_orchestrator.py:278 | in a dict with unique keys, `del d[k]` on a present key removes exactly one entry |
| Dicts.WithoutGet | src/academic_metrics/main/category_data_orchestrator.py:269-270 | leaving out the excluded keys hides exactly those keys and keeps the other values |
| Dicts.Update | src/academic_metrics/main/category_data_orchestrator.py:296 | definition of `existing.update(data)` as one assignment per entry of `data`, in order; `Dicts.UpdateGet`, `Dicts.UpdateKeys` and `Dicts.UpdateUnique` state its properties |
| Dicts.UpdateGet | src/academic_metrics/main/category_data_orchestrator.py:296 | after `existing.update(data)`, data's values win on shared keys and the other existing keys keep theirs |
| Dicts.UpdateKeys | src/academic_metrics/main/category_data_orchestrator.py:296 | after `update`, the existing keys stay in their order, followed by data's new keys in data's order |
| Dicts.UpdateUnique | src/academic_metrics/main/category_data_orchestrator.py:296 | `update` keeps every key unique |
| Json.SetToList | src/academic_metrics/main/category_data_orchestrator.py:394 | `list(value)` holds each element of the set exactly once |
| Json.ListOfSize | src/academic_metrics/main/category_data_orchestrator.py:394 | that list is exactly as long as the set is large |
| Json.ConvertSetsToLists | src/academic_metrics/main/category_data_orchestrator.py:392-399 | the dict object is updated in place and returned itself; sets become lists, nested dicts are converted recursively and keep their keys, lists and scalars are untouched |
| Json.ConvertedHasNoSets | src/academic_metrics/main/category_data_orchestrator.py:392-399 | after conversion no set can be reached through nested dicts |
| Json.ConvertedSetFreeIsIdentity | src/academic_metrics/main/category_data_orchestrator.py:395-398 | a value with no set reachable through dicts is left unchanged |
| Json.ConvertIdempotent | src/academic_metrics/main/category_data_orchestrator.py:392-399 | converting a second time changes nothing |
| Json.ConvertedKeepsKeys | src/academic_metrics/main/category_data_orchestrator.py:392-398 | conversion keeps a dict's keys in order |
| Json.ConvertedGet | src/academic_metrics/main/category_data_orchestrator.py:392-398 | a key is present after conversion exactly when it was present before, and its value is the converted old value |
| Json.ConvertedRemove | src/academic_metrics/main/category_data_orchestrator.py:276-278 | deleting a key from the converted dict is the same as converting the dict without that key |
| CategoryOutput.ToDict | src/academic_metrics/main/category_data_orchestrator.py:269-270 | `to_dict(exclude_keys=[…])` as the attributes without the four excluded keys; `Dicts.WithoutGet` states its property |
| CategoryOutput.WithUrl | src/academic_metrics/main/category_data_orchestrator.py:259 | a category's attributes after `values.url = url`; `Dicts.Put` and `CategoryOutput.UrlAfterCleaning` state its properties |
| CategoryOutput.CategoryDataOrchestrator.AddUrl | src/academic_metrics/main/category_data_orchestrator.py:249-259 | the categories keep their names and order; each one's `url` becomes the slug of its name and nothing else changes |
| CategoryOutput.TcListAfterUrl | src/academic_metrics/main/category_data_orchestrator.py:259-270 | setting `url` does not change whether the cleaned dict has a `tc_list` |
| CategoryOutput.UrlAfterCleaning | src/academic_metrics/main/category_data_orchestrator.py:259-278 | the `url` that `addUrl` sets survives `to_dict`, conversion and the deletion of `tc_list` |
| CategoryOutput.DeleteAfterConvert | src/academic_metrics/main/category_data_orchestrator.py:267-278 | a converted category dict has a `tc_list` exactly when its `to_dict` output had one, and deleting it gives the cleaned entry |
| CategoryOutput.CategoryDataOrchestrator.ConvertCategories | src/academic_metrics/main/category_data_orchestrator.py:267-274 | for every category in order, the result holds its `to_dict` output after `convert_sets_to_lists` |
| CategoryOutput.CategoryDataOrchestrator.DeleteTcLists | src/academic_metrics/main/category_data_orchestrator.py:276-278 | deletes `tc_list` from every converted dict, or raises KeyError('tc_list') when a category lacks one |
| CategoryOutput.AllCleanedFacts | src/academic_metrics/main/category_data_orchestrator.py:265-280 | the cleaned data has the same categories in the same order, and each entry has `tc_list` removed and its sets converted |
| CategoryOutput.CategoryDataOrchestrator.CleanCategoryData | src/academic_metrics/main/category_data_orchestrator.py:265-280 | succeeds exactly when every category's `to_dict` output has a `tc_list`, and raises KeyError('tc_list') otherwise; on success it keeps the category keys in order and cleans each entry |
| CategoryOutput.FlattenToList | src/academic_metrics/main/category_data_orchestrator.py:282-284 | `list(d.values())` has one element per entry, namely the entry's value, in insertion order |
| CategoryOutput.FlattenFacultyStats | src/academic_metrics/main/category_data_orchestrator.py:316-328 | the flattened faculty list is as long as all the inner dicts together |
| CategoryOutput.FlattenFacultyStatsAt | src/academic_metrics/main/category_data_orchestrator.py:323-328 | entry `j` of category `c` lands at position (sizes of the categories before `c`) + `j` |
| CategoryOutput.ExtendMerge | src/academic_metrics/main/category_data_orchestrator.py:290-297 | a list extended by a list holds the old items followed by the new ones. `extend` on a non-list and `update` on a non-dict raise AttributeError. `update` with a dict merges; with an empty string or empty set it changes nothing; with another string it raises ValueError; any other argument is an error (see Left out) |
| CategoryOutput.ExtendMergeDictGet | src/academic_metrics/main/category_data_orchestrator.py:296 | when merging dicts, the new values win on shared keys and the other old keys keep theirs |
| CategoryOutput.ExtendMergeDictKeys | src/academic_metrics/main/category_data_orchestrator.py:296 | a dict merge keeps the old keys in place and appends the new keys in order |
| CategoryOutput.ExtendMergeDictUnique | src/academic_metrics/main/category_data_orchestrator.py:296 | a dict merge into a dict with unique keys keeps every key unique |
| CategoryOutput.AsDicts | src/academic_metrics/main/category_data_orchestrator.py:310-313 | every flattened category dict becomes one JSON object of the written list, in order |
| CategoryOutput.CategoryDataOrchestrator.WriteToJson | src/academic_metrics/main/category_data_orchestrator.py:286-300 | without extend mode the data itself is written; with it, the data merged into the file's content |
| CategoryOutput.SavedEntry | src/academic_metrics/main/category_data_orchestrator.py:259-278 | a category's cleaned dict carries the slug of its name as `url` and has no `tc_list` |
| CategoryOutput.CleanedAreSaved | src/academic_metrics/main/category_data_orchestrator.py:304-307 | after `addUrl` and cleaning, every category dict is that category's cleaned `to_dict` output, carries its slug and has no `tc_list` |
| CategoryOutput.FlattenedAreSaved | src/academic_metrics/main/category_data_orchestrator.py:307-310 | flattening those dicts gives, in order, one such dict per category |
| CategoryOutput.CategoryDataOrchestrator.SerializeAndSaveData | src/academic_metrics/main/category_data_orchestrator.py:302-314 | every category gets its slug as `url`. The write succeeds exactly when every category has a `tc_list` (and, in extend mode, the file holds a list); otherwise it raises KeyError or AttributeError('extend'). On success the written list is the old file items (extend mode only), then one dict per category, in order. Each dict is that category's `to_dict` output after `addUrl`, with its sets converted and `tc_list` deleted, so it carries the slug as `url` |
| Pipeline.IsNew | src/academic_metrics/runners/pipeline.py:140 | definition of the test `doi[0] and doi[1] not in existing_dois`; `Pipeline.KeptAreNew` and `Pipeline.RejectedAreOld` state what it selects |
| Pipeline.Kept | src/academic_metrics/runners/pipeline.py:131-141 | definition of the kept articles; `Pipeline.FilterNewArticles` is proved equal to it, and the lemma rows below state its properties |
| Pipeline.Rejected | src/academic_metrics/runners/pipeline.py:142-143 | definition of the articles counted as already existing; `Pipeline.Partition` and `Pipeline.RejectedAreOld` state its properties |
| Pipeline.FilterNewArticles | src/academic_metrics/runners/pipeline.py:130-143 | the loop's `filtered_data` is the kept articles in order, `already_existing_count` is the number of dropped ones, and together they number `len(data)` |
| Pipeline.Partition | src/academic_metrics/runners/pipeline.py:130-143 | kept and dropped articles together are exactly the input articles, as a multiset |
| Pipeline.PartitionCount | src/academic_metrics/runners/pipeline.py:130-143 | `len(filtered_data) + already_existing_count == len(data)` |
| Pipeline.KeptAreNew | src/academic_metrics/runners/pipeline.py:140-141 | every kept article has a DOI, and that DOI is not among the existing ones |
| Pipeline.RejectedAreOld | src/academic_metrics/runners/pipeline.py:140-143 | every dropped article has no DOI or an existing one |
| Pipeline.KeptIndicesPick | src/academic_metrics/runners/pipeline.py:132-141 | the kept articles are the input articles at the kept positions |
| Pipeline.KeptIndicesIncrease | src/academic_metrics/runners/pipeline.py:132-141 | the kept positions strictly increase |
| Pipeline.KeptIndicesExact | src/academic_metrics/runners/pipeline.py:132-141 | a position is kept exactly when its article is new |
| Pipeline.KeptIsOrderedSubsequence | src/academic_metrics/runners/pipeline.py:132-141 | `filtered_data` is an order-preserving subsequence of `data` that contains every new article |
| Pipeline.NoDedup | src/academic_metrics/runners/pipeline.py:140-141 | the filter does not deduplicate: a new article occurs in the output as often as in the input, even when several articles share its DOI |
| Factories.DataClassFactory.constructor | src/academic_metrics/factories/dataclass_factory.py:16 | the class-level `_registry` starts empty |
| Factories.DataClassFactory.RegisterDataclass | src/academic_metrics/factories/dataclass_factory.py:51-57 | registering sets the entry for the type's value, replacing any earlier one; every other entry stays unchanged, and the dataclass is returned as it is |
| Factories.NotRegisteredMessage | src/academic_metrics/factories/dataclass_factory.py:87 | the ValueError message, the fixed text followed by the type; `Factories.DataClassFactory.GetDataclass` states when it is raised |
| Factories.DataClassFactory.GetDataclass | src/academic_metrics/factories/dataclass_factory.py:84-96 | raises ValueError exactly when the type is unregistered; otherwise it instantiates the registered dataclass and calls `set_params` only when keyword arguments are given; the registry is not modified |
| Factories.DataClassFactory.IsRegistered | src/academic_metrics/factories/dataclass_factory.py:109 | true exactly when the type's value is a registry key; the registry is not modified |
| Factories.FactoryInstance.constructor | src/academic_metrics/factories/dataclass_factory.py:18-35 | creating an instance leaves the shared registry as it was |
| Factories.RegisteredIsSharedByInstances | src/academic_metrics/factories/dataclass_factory.py:16-109 | a registration made through one instance is seen by an instance created afterwards: `is_registered` is true and the lookup returns the dataclass without calling `set_params` |

## Left out

- `CategoryInfo.to_dict(exclude_keys=…)` is not part of this model. It is modelled as the instance's attribute dict with the excluded keys removed.
- The aliasing between the dicts `to_dict` returns and the objects inside `CategoryInfo` is not modelled. In the model, a nested dict converted in place by `convert_sets_to_lists` is a copy.
- CategoryOutput.CategoryDataOrchestrator.AddUrl: two category names that share the same `CategoryInfo` object are not modelled; each category's info is a value, so the update cannot reach another category.
- CategoryOutput.CategoryDataOrchestrator.CleanCategoryData: the comprehension and the deletion loop are modelled as building new sequences rather than updating Python's dicts in place. A KeyError leaves no visible partial result either way, since the exception propagates.
- Slugs.LowerChar: lower-cases ASCII only. Python's `str.lower()` also maps a few non-ASCII characters to ASCII letters (the Kelvin sign becomes `k`, for example), which the model would turn into a hyphen instead.
- `list(set)` iteration order is Python's hash order. The model picks the elements in an unspecified order and proves only that each element occurs exactly once.
- CategoryOutput.ExtendMerge: Python's `dict.update` accepts any iterable of key–value pairs, for example a non-empty set of two-character strings. The model accepts only a dict, an empty string or an empty set. It reports ValueError for any other string, and TypeError for every other value, including a set of such pairs. No caller reaches these cases: every caller of `_write_to_json` passes a list (lines 313, 330, 343, 359 and 371).
- CategoryOutput.ExtendMerge requires that the existing content is not a set, because it comes from `json.load`, which never yields one. So `set.update` is not modelled.
- Floating-point JSON numbers are not modelled; there are only ints, strings, booleans and null.
- File I/O (`open`, `json.load`, `json.dump`), `print`, logging and warning-manager calls are left out. The existing file content is a parameter; what would be dumped is the result.
- The category aggregation, faculty-name merging and other processing that produce the category data are outside this model; the data is an input.
- `generate_short_uuid_as_url`, `serialize_and_save_article_stats`, `serialize_and_save_article_stats_obj` and `serialize_and_save_global_faculty_stats` are left out. They depend on `shortuuid` or on collaborators' `to_dict` methods; otherwise they only reuse `convert_sets_to_lists`, `_flatten_to_list` and `_write_to_json`, which are modelled.
- In `run_pipeline`, the following are left out:
  - the Crossref, scraper, classification and database collaborators;
  - the offline file loading;
  - the interactive `input()` slicing in debug mode.

  `get_attributes` is a function parameter whose `doi[0]` is a boolean; the source tests its truthiness.
- Factories.DataClassFactory.GetDataclass: a registered dataclass is assumed truthy, as every Python class object is unless its type overrides truthiness. `set_params` itself belongs to the dataclasses, so the model records only whether it is called and with which arguments.
- `DataClassTypes` is not part of this model. A member is represented by its printed name and its `value`.
- The logger setup in `DataClassFactory.__init__` is not modelled.
- `Database/DatabaseSetup.py` and `abstract_classifier_factory.py` are not modelled. They hold database setup and a thin constructor wrapper, with no behaviour of this core.
- The `PipelineRunner` wiring of its collaborators is left out, since it is glue code.
