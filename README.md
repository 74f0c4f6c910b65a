# fields-options in Dafny

A model of the PHP library `luciansabo/fields-options`. The library lets an API
client say which fields of a response it wants. It also lets the client attach
options to a field.

The model covers five parts of the library.

- **The selection tree** (`FieldsOptions`). This is a nested PHP array. A field
  maps to `true`, to `false` or to a sub-tree. Options sit under the key `_opt`.
  Group markers such as `_defaults` and `_all` start with `_`.
- **The dot-path readers and writer** (`ArrayExtractor::getValue`,
  `ArrayHelper::getValue` and `ArrayHelper::setValue`). All the other parts
  reach into the tree through these.
- **The fluent builder** (`FieldsOptionsBuilder`). It writes flags, group
  markers and options at dotted paths.
- **The validator** (`Validator`). It checks the shape of a tree. When it is
  bound to a prototype, it also checks every field path against that
  prototype: an array or an object graph.
- **The object applier** (`FieldsOptionsObjectApplier`). It walks an object
  graph under a tree and tells an exporter which properties of each object to
  export. Two capped caches keep it from applying the same tree to an object
  twice and from reflecting a class twice.

How PHP constructs are modelled:

- **Ordered arrays.** A PHP array with string keys is a sequence of key/value
  pairs (`OrderedMap`). A lookup finds the first pair with the key. An
  assignment overwrites that pair where it stands, or appends a new pair at the
  end. This keeps PHP's iteration order, which decides the order of
  `getIncludedFields` and the eviction order of the caches.
- **Values.** A value is null, a bool, a scalar held by its text, or an array
  (`Values.Value`).
- **Paths.** Paths stay strings. `explode('.')` is `Paths.Split`, and PHP's
  string truthiness (`""` and `"0"` are false) is `Paths.TruthyString`.
- **Exceptions.** Thrown exceptions become `Err`/`Fail` results that carry the
  exception's message as an error variant.

The builder and the applier update their own fields, so each is a `class`
whose methods modify those fields. `setValue` descends through the array by
reference. `ArrayHelper.SetValue` models it with a loop that records the
parents it passes and then rebuilds them. That loop is proved equal to the
recursive specification `ArrayHelper.SetPath`.

## Model

| member | source | states |
|---|---|---|
| Paths.Split | src/ArrayHelper.php:13 | `explode('.')` returns at least one piece; what the pieces are is stated by SplitPieces, SplitDot, SplitNoDot and SplitJoin |
| Paths.SplitPieces | src/ArrayHelper.php:13 | the pieces `explode('.')` returns hold no dot, and gluing them back with dots gives the path |
| Paths.SplitDot | src/FieldsOptions.php:42 | splitting `"$a.$b"` gives the pieces of a followed by those of b, so every `"$fieldPath.$field"` walks one level deeper |
| Paths.SplitNoDot | src/ArrayHelper.php:13 | a key without a dot is a one-piece path |
| Paths.SplitJoin | src/ArrayHelper.php:13 | splitting undoes joining dot-free pieces (the inverse of SplitPieces) |
| OrderedMap.LookupKeys | src/ArrayHelper.php:15 | a key is set in an array exactly when it is one of its keys |
| OrderedMap.KeyAt | src/FieldsOptions.php:83 | the i-th key `foreach` yields is the key of the i-th pair |
| OrderedMap.Put | src/ArrayHelper.php:57 | after `$m[$k] = $v`, k reads v, every other key reads as before, an existing key keeps its place and a new one goes last |
| OrderedMap.PutUnique | src/ArrayHelper.php:57 | assignment keeps the keys of an array distinct |
| OrderedMap.PutEntries | src/ArrayHelper.php:57 | assignment adds no pair other than the one assigned |
| OrderedMap.PutTwice | src/ArrayHelper.php:57 | assigning the same key twice leaves only the second value |
| OrderedMap.LookupUnique | src/FieldsOptions.php:83-85 | with distinct keys, the key of the i-th pair reads the i-th value, as `foreach` then reads it back by key |
| OrderedMap.LookupIndex | src/ArrayHelper.php:15-18 | a key that is set is the key of some pair holding the value read |
| ArrayHelper.GetValue | src/ArrayHelper.php:10-27 | a null key gives the whole array; otherwise the value the walk finds or the default, as GetValueStuck, GetValueDotted and SetValueRoundTrip state |
| ArrayHelper.Find | src/ArrayHelper.php:14-21 | the walk of `getValue` never ends on null after a segment, because `isset` treats null as missing |
| ArrayHelper.FindConcat | src/ArrayHelper.php:14-19 | walking p and then q is walking p + q, and a walk stuck in p stays stuck |
| ArrayHelper.GetValueStuck | src/ArrayHelper.php:15-17 | `getValue` returns the default once a prefix of the path leads to a non-array, or to an array that does not set the next segment to a non-null value |
| ArrayHelper.GetValueDotted | src/ArrayHelper.php:10-21 | reading `"p.q"` reads p, then q inside it when p holds an array, and gives the default otherwise |
| ArrayHelper.SetPath | src/ArrayHelper.php:36-58 | a write along a path changes only the first segment's entry of the array, keeping its place, or appends it |
| ArrayHelper.ChildArray | src/ArrayHelper.php:48-52 | the array the descent steps into: the key's array, or `[]` when the key is missing, null or a scalar; ChildArrayWellFormed and SetPathCreates state its effect |
| ArrayHelper.Plug | src/ArrayHelper.php:38-58 | rebuilds the parents the descent recorded around the assigned array; DescendStep makes it the loop invariant of SetValue |
| ArrayHelper.SetValue | src/ArrayHelper.php:29-59 | `setValue` replaces the whole array for a null key; otherwise its descend-and-assign loop computes SetPath |
| ArrayHelper.DescendStep | src/ArrayHelper.php:43-52 | one step of the descent leaves the final result of the write unchanged (the loop invariant of SetValue) |
| ArrayHelper.SetPathRoundTrip | src/ArrayHelper.php:29-59 | after writing a non-null value at a path, walking that path finds it; after writing null, the walk finds nothing |
| ArrayHelper.SetValueRoundTrip | src/ArrayHelper.php:10-59 | `getValue` reads back what `setValue` wrote, or the default when null was written |
| ArrayHelper.SetPathFrame | src/ArrayHelper.php:48-57 | a path that leaves the written path at some segment reads the same before and after the write |
| ArrayHelper.SetPathCreates | src/ArrayHelper.php:48-50 | after a write, every proper prefix of the path leads to an array, since missing, null and scalar nodes on the way were replaced |
| ArrayHelper.FindPutHead | src/ArrayHelper.php:57 | walking `[k] + q` right after `$m[k] = x` walks q through x |
| ArrayHelper.FindTwoBelow | src/ArrayHelper.php:14-19 | a value found two segments a, b below p sits in an array under a, itself an array holding it under b |
| ArrayHelper.SetPathOverwrite | src/ArrayHelper.php:29-59 | writing the same path twice keeps only the second value |
| ArrayHelper.SetPathWellFormed | src/ArrayHelper.php:48-57 | writing a value with distinct keys keeps every array of the tree with distinct keys |
| ArrayHelper.ChildArrayWellFormed | src/ArrayHelper.php:48-52 | the array descended into keeps distinct keys |
| ArrayExtractor.Descend | src/ArrayExtractor.php:15-21 | the extractor's loop over the segments; DescendIsFind equates it with ArrayHelper.Find |
| ArrayExtractor.GetValue | src/ArrayExtractor.php:10-27 | a null key gives the whole array; SameAsArrayHelper and ResultNeverNullUnlessDefault state the rest |
| ArrayExtractor.DescendIsFind | src/ArrayExtractor.php:12-21 | the extractor's loop returns what the walk finds, or the default |
| ArrayExtractor.SameAsArrayHelper | src/ArrayExtractor.php:10-27 | `ArrayExtractor::getValue` and `ArrayHelper::getValue` agree on every input, the null key included |
| ArrayExtractor.ResultNeverNullUnlessDefault | src/ArrayExtractor.php:15-21 | with a path, the result is the default or a non-null value of the tree |
| FieldsOptions.FromArray | src/FieldsOptions.php:20-31 | `fromArray($data)->toArray()` returns `$data` |
| FieldsOptions.ToArray | src/FieldsOptions.php:28-31 | the stored array, or the array at a path; ToArrayAt and FromArray state it |
| FieldsOptions.IsFieldIncluded | src/FieldsOptions.php:33-36 | `getValue($path, false)` read as a bool; IsFieldIncludedIff states when it holds |
| FieldsOptions.FieldExists | src/FieldsOptions.php:94-97 | the corrected existence test; FieldExistsIff states when it holds |
| FieldsOptions.FieldExistsAsWritten | src/FieldsOptions.php:94-97 | the sentinel test as written; FieldExistsSentinelClash and FieldExistsAsWrittenAgrees compare it with FieldExists |
| FieldsOptions.IsFieldSpecified | src/FieldsOptionsObjectApplier.php:95 | the applier's `isFieldSpecified`, read as FieldExists; ExcludedNeverExported and ExportedFieldsMember use it |
| FieldsOptions.ToArrayAt | src/FieldsOptions.php:28-31 | `toArray($path)` is the array at the path, or the empty array when the path is missing or holds no array |
| FieldsOptions.IsFieldIncludedIff | src/FieldsOptions.php:33-36 | a field is included exactly when its path leads to a set value other than false |
| FieldsOptions.FieldExistsIff | src/FieldsOptions.php:94-97 | a field exists exactly when its path leads to a set value (corrected reading, see Findings) |
| FieldsOptions.IncludedImpliesExists | src/FieldsOptions.php:33-36 | every included field exists |
| FieldsOptions.AssertFieldExists | src/FieldsOptions.php:104-109 | `assertFieldExists` throws exactly when the field does not exist |
| FieldsOptions.FieldExistsSentinelClash | src/FieldsOptions.php:94-97 | as written, `fieldExists` reports a field holding the string "-123qwerty" as missing |
| FieldsOptions.FieldExistsAsWrittenAgrees | src/FieldsOptions.php:94-97 | on every other value, the check as written agrees with the corrected one |
| FieldsOptions.GetFieldOptions | src/FieldsOptions.php:38-43 | throws on a missing field, else the options under `_opt`; GetFieldOptionsAt states it |
| FieldsOptions.GetFieldOption | src/FieldsOptions.php:45-49 | one option of a field; GetFieldOptionAt and SetFieldOptionReadBack state it |
| FieldsOptions.GetFieldOptionsAt | src/FieldsOptions.php:38-43 | `getFieldOptions` throws on a missing field; otherwise it returns the set value under `_opt` at the field, or `[]` |
| FieldsOptions.GetFieldOptionAt | src/FieldsOptions.php:45-49 | `getFieldOption` returns the option when the options array sets it, else the default, and throws exactly where `getFieldOptions` does; for an existing field and a dot-free option it is the value the walk finds at `path`, `_opt`, option, or the default |
| FieldsOptions.OptionBelow | src/FieldsOptions.php:42-48 | reading an option from the options array of a node is walking `_opt`, option below that node |
| FieldsOptions.HasGroupField | src/FieldsOptions.php:51-62 | group lookup at a base path; HasGroupFieldAtNode and GroupFieldIncludedIsRead state it |
| FieldsOptions.HasGroupFieldAtNode | src/FieldsOptions.php:51-62 | `hasGroupField` throws on a missing base path, or on a custom group not set there; otherwise it tells whether the node sets the group to an included value |
| FieldsOptions.HasDefaultFields | src/FieldsOptions.php:64-67 | `hasGroupField('_defaults')`; DefaultGroupsNeverFail states it never throws at the root or an existing path |
| FieldsOptions.HasAllFields | src/FieldsOptions.php:69-72 | `hasGroupField('_all')`; DefaultGroupsNeverFail states the same |
| FieldsOptions.DefaultGroupsNeverFail | src/FieldsOptions.php:64-72 | `hasDefaultFields` and `hasAllFields` never throw at the root or at an existing path, and are false when the marker is not set |
| FieldsOptions.GetIncludedFields | src/FieldsOptions.php:74-92 | the included fields of a node; GetIncludedFieldsExact and GetIncludedFieldsDottedKey state it |
| FieldsOptions.GetIncludedFieldsExact | src/FieldsOptions.php:74-92 | `getIncludedFields` throws on a missing path; otherwise it lists, in key order, exactly the keys of the node whose values are included |
| FieldsOptions.GetIncludedFieldsDottedKey | src/FieldsOptions.php:81-88 | a top-level key `"p.q"` whose value is included is not listed, because the child path splits back into p and q, which the tree does not hold |
| FieldsOptions.CollectIncluded | src/FieldsOptions.php:83-88 | the loop of `getIncludedFields`; CollectIncludedExact states what it collects |
| FieldsOptions.CollectIncludedExact | src/FieldsOptions.php:83-88 | the loop of `getIncludedFields` collects, from any position on, the included keys of the rest |
| FieldsOptions.ChildIncluded | src/FieldsOptions.php:84-85 | the child path of the i-th key reads the i-th value |
| FieldsOptions.IncludedKeys | src/FieldsOptions.php:81-91 | every listed field is a key of the node |
| FieldsOptionsBuilder.Builder.constructor | src/FieldsOptionsBuilder.php:7 | a new builder holds the empty tree |
| FieldsOptionsBuilder.BasePath | src/FieldsOptionsBuilder.php:47 | `"$fieldPath."` for a truthy path, else the path itself; SetFieldInclusion's contract states the paths written |
| FieldsOptionsBuilder.Inclusion | src/FieldsOptionsBuilder.php:40-51 | the array after `setFieldInclusion`; SetFieldInclusion, InclusionIsRead and InclusionOverwrite state it |
| FieldsOptionsBuilder.WriteAll | src/FieldsOptionsBuilder.php:48-50 | the writes of the loop, in order; WriteFields, WriteAllStep and WriteAllReadsBack state it |
| FieldsOptionsBuilder.OptionPath | src/FieldsOptionsBuilder.php:58 | `"$path._opt.$option"`; OptionPathSplit and SetFieldOptionReadBack state it |
| FieldsOptionsBuilder.Builder.SetFieldInclusion | src/FieldsOptionsBuilder.php:38-54 | throws exactly when both the path and the field list are empty, changing nothing; otherwise writes the flag at the path, or at `"$path.$field"` for each field in turn |
| FieldsOptionsBuilder.Builder.WriteFields | src/FieldsOptionsBuilder.php:47-51 | the loop writes the flag at base + field for every field, in order |
| FieldsOptionsBuilder.Builder.SetFieldIncluded | src/FieldsOptionsBuilder.php:19-22 | SetFieldInclusion with true |
| FieldsOptionsBuilder.Builder.SetFieldExcluded | src/FieldsOptionsBuilder.php:33-36 | SetFieldInclusion with false |
| FieldsOptionsBuilder.Builder.SetFieldOption | src/FieldsOptionsBuilder.php:56-61 | writes the value at `"$path._opt.$option"` and nowhere else |
| FieldsOptionsBuilder.Builder.SetFieldOptions | src/FieldsOptionsBuilder.php:63-71 | the node at the path becomes `['_opt' => $options]` |
| FieldsOptionsBuilder.Builder.SetGroupFieldIncluded | src/FieldsOptionsBuilder.php:73-83 | includes the marker at `"$path.$group"`, or at the group alone without a path; throws only when that path is empty |
| FieldsOptionsBuilder.Builder.SetDefaultFieldsIncluded | src/FieldsOptionsBuilder.php:85-90 | includes `_defaults` under the path |
| FieldsOptionsBuilder.Builder.SetAllFieldsIncluded | src/FieldsOptionsBuilder.php:92-97 | includes `_all` under the path |
| FieldsOptionsBuilder.Builder.Build | src/FieldsOptionsBuilder.php:99-102 | the built tree holds exactly the accumulated data |
| FieldsOptionsBuilder.FirstDiff | src/FieldsOptionsBuilder.php:48-50 | the number of leading segments two field paths share: they agree up to it and differ right after |
| FieldsOptionsBuilder.DivergeFrame | src/FieldsOptionsBuilder.php:48-50 | a later write at a path that parts from p leaves what p reads unchanged |
| FieldsOptionsBuilder.WriteAllReadsBack | src/FieldsOptionsBuilder.php:48-50 | after the loop, field i reads the flag written, provided every later field writes the same path or one that parts from it |
| FieldsOptionsBuilder.CompatibleInit | src/FieldsOptionsBuilder.php:48-50 | the condition of WriteAllReadsBack carries over to the list without its last field |
| FieldsOptionsBuilder.WriteAllStep | src/FieldsOptionsBuilder.php:48-50 | one more field writes its own path on top of the earlier ones |
| FieldsOptionsBuilder.InclusionOverwrite | src/FieldsOptionsBuilder.php:44-45 | including or excluding the same path twice keeps only the second flag |
| FieldsOptionsBuilder.InclusionIsRead | src/FieldsOptionsBuilder.php:19-45 | an included path reads as included in the built tree, an excluded one as not included, and both exist |
| FieldsOptionsBuilder.OptionPathSplit | src/FieldsOptionsBuilder.php:58 | `"$path._opt.$option"` splits into the path's pieces, then `_opt`, then the option |
| FieldsOptionsBuilder.SetFieldOptionReadBack | src/FieldsOptionsBuilder.php:56-61 | after `setFieldOption`, `getFieldOption` on the built tree returns the value written |
| FieldsOptionsBuilder.SetFieldOptionKeepsOthers | src/FieldsOptionsBuilder.php:56-61 | `setFieldOption` leaves every other option of the field as it was |
| FieldsOptionsBuilder.SetFieldOptionsReplaces | src/FieldsOptionsBuilder.php:63-71 | after `setFieldOptions`, the field's options are exactly those given, and the group markers once under it are gone |
| FieldsOptionsBuilder.GroupFieldIncludedIsRead | src/FieldsOptionsBuilder.php:73-83 | after `setGroupFieldIncluded`, `hasGroupField` on the built tree is true for that group at that path |
| Validator.New | src/Validator.php:12-20 | a truthy prototype that is neither an array nor an object is refused; a falsy one binds no prototype |
| Validator.ValidateData | src/Validator.php:22-43 | the recursive check of the tree; ValidateDataIff, OptionsNotInspected and AcceptedIsWellShaped state it |
| Validator.ValidateFrom | src/Validator.php:24-42 | the loop of `validateData` from position i; ValidateFromIff and OptionsNotInspectedFrom state it |
| Validator.ValidateField | src/Validator.php:45-60 | the check of one field path against the prototype; NoPrototypeChecksShapeOnly, ArrayPrototypeIff and ValidateFieldPrefix state it |
| Validator.ObjectPathExists | src/Validator.php:71-114 | `objectPathExists`: Walk over the pieces of the path; ValidateFieldPrefix states it for object prototypes |
| Validator.Walk | src/Validator.php:76-113 | the walk over the property names; WalkPrefix states that every prefix of a valid path is valid |
| Validator.ValidateDataIff | src/Validator.php:22-43 | `validateData` passes exactly on the trees described by Accepted: `_opt` holds anything, a group marker holds a bool, a field has a valid path and holds a bool or such a tree |
| Validator.ValidateFromIff | src/Validator.php:24-42 | the loop of `validateData` passes from any position on exactly when the rest of the pairs are accepted |
| Validator.NoPrototypeChecksShapeOnly | src/Validator.php:45-49 | without a prototype, `validateData` checks the tree's shape and nothing else |
| Validator.AcceptedIsWellShaped | src/Validator.php:22-49 | without a prototype, acceptance is exactly the structural shape |
| Validator.OptionsNotInspected | src/Validator.php:25-26 | whatever the `_opt` entry holds, the result does not change |
| Validator.OptionsNotInspectedFrom | src/Validator.php:24-26 | the same, for the loop from any position on |
| Validator.ArrayPrototypeIff | src/Validator.php:51-54 | with an array prototype, a path is valid exactly when it leads to a set value other than false |
| Validator.WalkPrefix | src/Validator.php:71-114 | in the object walk, every prefix of a valid path is valid |
| Validator.ValidateFieldPrefix | src/Validator.php:45-60 | for either kind of prototype, if `"p.q"` is a valid field path then so is p |
| FieldsOptionsObjectApplier.Size | src/FieldsOptionsObjectApplier.php:75-87 | a tree has at least one node (the measure the recursion decreases) |
| FieldsOptionsObjectApplier.SizeFromBound | src/FieldsOptionsObjectApplier.php:75-87 | a child's tree is no larger than the trees of its siblings together |
| FieldsOptionsObjectApplier.FindSmaller | src/FieldsOptionsObjectApplier.php:75-87 | a node reached below the root is smaller than the root |
| FieldsOptionsObjectApplier.Sub | src/FieldsOptionsObjectApplier.php:77 | `new FieldsOptions($fieldsOptions->toArray($field))`; SubSmaller states it is smaller |
| FieldsOptionsObjectApplier.SubSmaller | src/FieldsOptionsObjectApplier.php:75-87 | the sub-tree passed down for an included field is smaller than the tree, so `apply` terminates on any object graph, cyclic ones included |
| FieldsOptionsObjectApplier.ByGroup | src/FieldsOptionsObjectApplier.php:94-104 | the group rule for one property; ExportedFieldsMember and ExcludedNeverExported state it |
| FieldsOptionsObjectApplier.Contribution | src/FieldsOptionsObjectApplier.php:94-108 | what one property adds to the list; ExportedFieldsStep states it |
| FieldsOptionsObjectApplier.ExportedFields | src/FieldsOptionsObjectApplier.php:66-109 | the list the loop accumulates; ExportedFieldsSelected, ExportedFieldsMember and ExportedFieldsDistinct state it |
| FieldsOptionsObjectApplier.ExportedFieldsStep | src/FieldsOptionsObjectApplier.php:94-108 | one more property extends the accumulated list by what the group rule and the explicit rule add for it |
| FieldsOptionsObjectApplier.ExportedFieldsSelected | src/FieldsOptionsObjectApplier.php:66-111 | the list handed to the exporter is the declared properties filtered by the rule "included, or unspecified and brought in by `_all` or `_defaults`", in declaration order; the two rules never both add a property |
| FieldsOptionsObjectApplier.ExportedFieldsMember | src/FieldsOptionsObjectApplier.php:94-108 | a property is in the list exactly when it is declared and the rule selects it |
| FieldsOptionsObjectApplier.SelectedMember | src/FieldsOptionsObjectApplier.php:94-108 | the same, for the reference filter |
| FieldsOptionsObjectApplier.ExportedFieldsDistinct | src/FieldsOptionsObjectApplier.php:94-108 | distinct declared properties give a list without repeats |
| FieldsOptionsObjectApplier.SelectedDistinct | src/FieldsOptionsObjectApplier.php:94-108 | the same, for the reference filter |
| FieldsOptionsObjectApplier.ExcludedNeverExported | src/FieldsOptionsObjectApplier.php:94-108 | a property that is specified but not included is never exported, whatever the groups say |
| FieldsOptionsObjectApplier.CastKey | src/FieldsOptionsObjectApplier.php:38 | PHP's array-key cast: a canonical decimal string becomes an integer key, any other string stays the same string key |
| FieldsOptionsObjectApplier.ListArray | src/FieldsOptions.php:74-92 | the list `getIncludedFields` returns is an array keyed 0 to n-1 holding the field names in order |
| FieldsOptionsObjectApplier.ListEqualsOneEntry | src/FieldsOptionsObjectApplier.php:38-53 | a list loosely equals a one-entry array only when it has one element, the entry's key casts to 0, and the element's truthiness is the entry's flag |
| FieldsOptionsObjectApplier.ZeroKeyEqualsList | src/FieldsOptionsObjectApplier.php:38-53 | the converse: a one-element list of a truthy string equals `['0' => true]`, so the loose comparison is not empty |
| FieldsOptionsObjectApplier.FastPathsNeverTaken | src/FieldsOptionsObjectApplier.php:38-54 | no list of field names loosely equals `[_all => true]`, `[_defaults => true]` or `[_defaults => false]`, because neither key casts to the integer 0 |
| FieldsOptionsObjectApplier.EvictThenPut | src/FieldsOptionsObjectApplier.php:128-135 | a capped insertion stays within the cap plus one, sets the key, and keeps every other entry except the evicted oldest one |
| FieldsOptionsObjectApplier.EvictThenPutEntries | src/FieldsOptionsObjectApplier.php:128-135 | a capped insertion keeps keys distinct and adds no entry but the new one |
| FieldsOptionsObjectApplier.ObjectItems | src/FieldsOptionsObjectApplier.php:82-83 | every object collected is one of the items |
| FieldsOptionsObjectApplier.Recipients | src/FieldsOptionsObjectApplier.php:69-91 | every object `apply` recurses into for a property value is in the graph |
| FieldsOptionsObjectApplier.Children | src/FieldsOptionsObjectApplier.php:66-91 | every (object, tree) pair recursed into carries a tree smaller than the current one |
| FieldsOptionsObjectApplier.Pairs | src/FieldsOptionsObjectApplier.php:75-88 | each recipient is paired with the sub-tree of its property |
| FieldsOptionsObjectApplier.ChildrenPrefix | src/FieldsOptionsObjectApplier.php:66-92 | the recursions of the first i properties come first, in order |
| FieldsOptionsObjectApplier.ChildrenStep | src/FieldsOptionsObjectApplier.php:66-92 | property i adds the recursions into its recipients with its sub-tree |
| FieldsOptionsObjectApplier.ReachThroughField | src/FieldsOptionsObjectApplier.php:68-91 | what is reached from a recipient of an included, initialised property is reached from the object owning it |
| FieldsOptionsObjectApplier.ReachViaPrefixed | src/FieldsOptionsObjectApplier.php:66-92 | what is reached from one recursion is reached from the object |
| FieldsOptionsObjectApplier.LeafNoRecursion | src/FieldsOptionsObjectApplier.php:68-91 | when an object recurses into nothing, none of its included properties holds an object `apply` recurses into |
| FieldsOptionsObjectApplier.ExtendsOwnCall | src/FieldsOptionsObjectApplier.php:61 | a call about the object itself may be added to its log |
| FieldsOptionsObjectApplier.ExtendsTrans | src/FieldsOptionsObjectApplier.php:66-111 | growing the call log twice, each time by reached objects, is growing it once |
| FieldsOptionsObjectApplier.NothingRequested | src/FieldsOptionsObjectApplier.php:41-47 | the live early return: no field included and `_defaults` not specified; Apply states that it then changes nothing but the cache |
| FieldsOptionsObjectApplier.Applier.ExportCall | src/FieldsOptionsObjectApplier.php:111 | the `setExportedFields` call with the selected list; Apply and ExportProperties state when it is made |
| FieldsOptionsObjectApplier.Applier.constructor | src/FieldsOptionsObjectApplier.php:26-29 | a new applier starts with empty caches and no exporter calls |
| FieldsOptionsObjectApplier.Applier.CacheObject | src/FieldsOptionsObjectApplier.php:121-138 | true, changing nothing, when the object's cached hash is this tree's; otherwise records the hash after evicting the oldest entry when over the cap |
| FieldsOptionsObjectApplier.Applier.GetReflection | src/FieldsOptionsObjectApplier.php:140-159 | returns the class's declared properties, from the cache when present, else recording them with the same capped eviction |
| FieldsOptionsObjectApplier.Applier.Apply | src/FieldsOptionsObjectApplier.php:31-112 | a cache hit or an empty request changes nothing but the cache; otherwise the exporter is asked for its defaults when `_defaults` is set, and on success the last call hands it the list of ExportedFieldsSelected; every exporter call concerns an object reached through included properties; for an object that recurses into nothing, the apply cache afterwards is the capped insertion of the tree's hash and the reflection cache holds the class |
| FieldsOptionsObjectApplier.Applier.Export | src/FieldsOptionsObjectApplier.php:56-111 | the part after the early returns: defaults consulted first, the exported list handed over last; for an object that recurses into nothing, only the reflection lookup touches the caches |
| FieldsOptionsObjectApplier.Applier.ConsultDefaults | src/FieldsOptionsObjectApplier.php:59-61 | with `_defaults` set, one `getExportedFields` call and its answer; otherwise no call and no defaults |
| FieldsOptionsObjectApplier.Applier.ExportProperties | src/FieldsOptionsObjectApplier.php:63-111 | after the loop, `setExportedFields` is called with the list the rule selects from the declared properties |
| FieldsOptionsObjectApplier.Applier.VisitProperties | src/FieldsOptionsObjectApplier.php:66-109 | the loop accumulates exactly ExportedFields over the declared properties, calls the exporter only about reached objects, and leaves both caches alone when the object recurses into nothing |
| FieldsOptionsObjectApplier.Applier.ApplyField | src/FieldsOptionsObjectApplier.php:68-91 | reading an uninitialised included property throws before any recursion; the recursion calls the exporter only about objects reached from this one; a property leading to no object leaves both caches alone |
| FieldsOptionsObjectApplier.Applier.ApplyAll | src/FieldsOptionsObjectApplier.php:82-89 | each exporter call concerns an object reached from one of the recipients; no recipients leave both caches alone |

## Left out

- Integer keys and PHP's type juggling are not modelled, except in the array comparisons of `apply`'s fast paths (see below). Keys are strings, and loose `==` comparisons are exact. This covers `$key == '_opt'` in `validateData`, `in_array($field, $defaults)` in `apply`, and numeric strings such as `"1"` and `"01"`.
- Integers and floats are not modelled as numbers. They are scalars held by their text, so the float `0.0` is truthy here.
- `getFieldOption` returns `?string`. Its coercion of the option to a string, and the `TypeError` when the option is an array, are not modelled; any value is returned.
- The `(array)` return type of `getFieldOptions` is not modelled. A non-array stored under `_opt` is returned as it is, where PHP would throw a `TypeError`.
- `FieldsOptions::getHash` is not part of this model. The applier takes it as the function `hash`. A cache hit compares hashes, and so does the model.
- Class names and `spl_object_hash` are modelled as names and as object ids (`ObjId`).
- PHP reflection is modelled by tables.
  - The applier's `Heap` gives each class's declared properties in order, and the set of (subclass, superclass or interface) pairs that `is_subclass_of` consults.
  - The validator's `ClassTable` gives each property's declared type. A type either names an existing class or does not; union types and built-in types fall in the second case.
  - The table also gives the properties that `newInstanceWithoutConstructor` leaves initialised.
  - `setAccessible` has no effect in the model.
  - `newInstanceWithoutConstructor` (src/Validator.php:90) throws for an abstract class, an interface or an enum. `Validator.Walk` instead descends into a blank object of the named class, holding the table's initialised properties. So for such a property type, the validator answers where PHP would throw.
- The exporter (`ExportApplierInterface`) is modelled by two things.
  - The `exporter` function. It gives the answer of `getExportedFields` from the object and the calls it received before.
  - The call log `calls`, which records the calls made on it.
  - `getSupportedClass` is the constant `supported`. See the line on Apply below.
  - Other effects of the exporter's own code are not part of this model.
- FieldsOptionsObjectApplier.Applier.Apply: the contract says every exporter call concerns a reached object. It does not say that every reached object gets a call, because the apply cache can legitimately skip objects.
- FieldsOptionsObjectApplier.Applier.Apply: the caches after the call are stated only for an object that recurses into nothing (`Leaf`). Otherwise the nested calls insert and evict entries of both caches. On a cycle, or after an eviction, they can even rewrite the object's own entry. The contract does not describe the caches in that case.
- FieldsOptionsObjectApplier.Applier.Apply: `getSupportedClass` (src/FieldsOptionsObjectApplier.php:64) is not declared in `ExportApplierInterface` (src/ExportApplierInterface.php:5-15). The sample exporter of the tests (tests/Fixture/SampleExportApplier.php) does not define it either. PHP would throw on such an exporter once `apply` passes the early returns. The model assumes every exporter answers it, with the constant `supported`.
- Validator.ValidateData: `OPTIONS_KEY`, `FIELD_DEFAULTS` and `FIELD_ALL` are private constants of `FieldsOptions` (src/FieldsOptions.php:10-12). Other classes read them: src/Validator.php:25, src/FieldsOptionsBuilder.php:58, 67, 87 and 94, and src/FieldsOptionsObjectApplier.php:38, 43, 44 and 49. PHP refuses those reads with an `Error`. The model reads the constants' values as if they were public. This affects Validator.ValidateData, FieldsOptionsBuilder.Builder.SetFieldOption, SetFieldOptions, SetDefaultFieldsIncluded and SetAllFieldsIncluded, and FieldsOptionsObjectApplier.Applier.Apply.
- FieldsOptions.FieldExists: the members that test existence follow the corrected reading of the Findings row, not the sentinel check as written. They are AssertFieldExists, GetFieldOptions, GetFieldOption, HasGroupField, HasDefaultFields, HasAllFields, GetIncludedFields and IsFieldSpecified, and through IsFieldSpecified the applier's ByGroup and ExportedFields. They differ from the code only on a field holding the string "-123qwerty" (FieldExistsAsWrittenAgrees). For `['k' => '-123qwerty']`, `getFieldOptions('k')` throws in PHP, but the model returns `Ok`.
- FieldsOptions.GetIncludedFieldsExact: requires the keys of the node to be free of dots. A key with a dot is never listed, even when its value is included, because the child path splits back at the dot. For `['a.b' => true]` the result is `[]` (FieldsOptions.GetIncludedFieldsDottedKey).
- The object applier's iteration over an object's items is modelled for rewindable iterables given by a list of items. A Generator is skipped, as in the library. Side effects of iterating are not modelled.
- The first and third fast paths of `apply` (lines 38-40 and 48-53) and the `[_defaults => true]` disjunct at line 44 are not modelled as branches. Each compares the list from `getIncludedFields` with a one-entry array keyed by a group name, using PHP's loose `==`. The model of that comparison (`LooseArrayEq`) casts keys as PHP does (`CastKey`). A string and a bool compare by the string's truthiness, as in PHP; two strings compare exactly. Under it, no list equals any of the three arrays (FieldsOptionsObjectApplier.FastPathsNeverTaken). The live early return is `NothingRequested`. The comparison of two numeric strings by their numeric value is not modelled; these comparisons only ever pair a string with a bool.
- The builder's methods require `WellFormed` values: arrays whose keys are distinct. Every PHP array has distinct keys, so this excludes no input PHP can build.
- `FieldsOptionsBuilder.BasePath` keeps PHP's behaviour for a base path `"0"`. That path is falsy, so the fields are appended to `"0"` without a dot, as in the library.
- The names in the source differ between files, and the model follows the code that is called.
  - The applier calls `isFieldSpecified`, `toArray($field)` and `new FieldsOptions($array)`.
  - The class shown has `fieldExists`, `toArray()` and `fromArray`.
  - The model reads `isFieldSpecified` as `fieldExists`, `toArray($path)` as the array at the path or `[]`, and the constructor as `fromArray`.
- The interfaces `ExportApplierInterface` and `ValidatorInterface` declare no behaviour of their own and are not modelled.
- JSON parsing and formatting, and any input outside the selection array, are not part of this model.
- Passing the array by reference in `setValue` is modelled by returning the new array. The builder assigns that array to its `data` field.

## Findings

| source | as written | input that shows it | evidently intended | confidence | as-written member | corrected member |
|---|---|---|---|---|---|---|
| src/FieldsOptions.php:94-97 | `fieldExists` compares the result of `getValue` against the sentinel default `'-123qwerty'` | `fromArray(['k' => '-123qwerty'])->fieldExists('k')` is false, although `k` is set | a field exists exactly when its path leads to a set value | not executed | FieldsOptions.FieldExistsSentinelClash | FieldsOptions.FieldExistsIff |
