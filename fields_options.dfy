/**
 * `FieldsOptions`: an immutable selection tree and its queries. A field is
 * included when its value is anything but false (absent and null read as
 * false); it exists when its value is set at all. Options hang under the key
 * "_opt"; keys starting with "_" are group markers.
 */
module FieldsOptions {
  import opened Wrappers
  import opened OrderedMap
  import opened Values
  import opened Paths
  import ArrayHelper
  import ArrayExtractor

  const OPTIONS_KEY := "_opt"
  const FIELD_DEFAULTS := "_defaults"
  const FIELD_ALL := "_all"
  const DEFAULT_GROUPS := [FIELD_DEFAULTS, FIELD_ALL]

  /** The `\InvalidArgumentException` "Field ... is not available". */
  datatype Error = FieldNotAvailable(path: string)

  datatype FieldsOptions = FieldsOptions(data: Entries)

  /** A value that makes its field included: anything but null and false. */
  predicate Included(v: Value) {
    v != Null && v != B(false)
  }

  /** True for a path given and truthy, as PHP's `$fieldPath ? … : …` tests it. */
  predicate Given(path: Option<string>) {
    path.Some? && TruthyString(path.value)
  }

  /** The path of a child: `$fieldPath ? "$fieldPath.$field" : $field`. */
  function ChildPath(path: Option<string>, field: string): string {
    if Given(path) then path.value + "." + field else field
  }

  /** The node a query with this base path looks at: the root when none is given. */
  ghost function NodeAt(t: FieldsOptions, path: Option<string>): Option<Value> {
    if Given(path) then ArrayHelper.Find(M(t.data), Split(path.value)) else Some(M(t.data))
  }

  /** `FieldsOptions::fromArray($data)`. */
  function FromArray(data: Entries): (t: FieldsOptions)
    ensures ToArray(t, None) == data
  {
    FieldsOptions(data)
  }

  /**
   * `toArray()` returns the tree; `toArray($path)` the array stored at the
   * path, or the empty array when the path is missing or holds no array.
   */
  function ToArray(t: FieldsOptions, path: Option<string>): Entries {
    if path.None? then t.data
    else
      var v := ArrayExtractor.GetValue(t.data, path, Null);
      if v.M? then v.entries else []
  }

  /** `isFieldIncluded($fieldPath)`. */
  function IsFieldIncluded(t: FieldsOptions, path: string): bool {
    ArrayExtractor.GetValue(t.data, Some(path), B(false)) != B(false)
  }

  /**
   * `fieldExists($fieldPath)` with the sentinel check read as intended: the
   * path leads to a set (non-null) value. See FieldExistsAsWritten.
   */
  function FieldExists(t: FieldsOptions, path: string): bool {
    ArrayExtractor.GetValue(t.data, Some(path), Null) != Null
  }

  /** `isFieldSpecified($fieldPath)`, called by the applier; it is `fieldExists`. */
  function IsFieldSpecified(t: FieldsOptions, path: string): bool {
    FieldExists(t, path)
  }

  /** `fieldExists` as written: the lookup's default is the string "-123qwerty". */
  function FieldExistsAsWritten(t: FieldsOptions, path: string): bool {
    ArrayExtractor.GetValue(t.data, Some(path), Scalar("-123qwerty")) != Scalar("-123qwerty")
  }

  /** `assertFieldExists($fieldPath)`. */
  function AssertFieldExists(t: FieldsOptions, path: string): (r: Outcome<Error>)
    ensures r.Pass? <==> FieldExists(t, path)
  {
    if FieldExists(t, path) then Pass else Fail(FieldNotAvailable(path))
  }

  /** `getFieldOptions($fieldPath)`: the value at "path._opt", defaulting to the empty array. */
  function GetFieldOptions(t: FieldsOptions, path: string): Result<Value, Error> {
    if AssertFieldExists(t, path).Fail? then Err(FieldNotAvailable(path))
    else Ok(ArrayExtractor.GetValue(t.data, Some(path + "." + OPTIONS_KEY), M([])))
  }

  /** `getFieldOption($fieldPath, $option, $default)`: `$options[$option] ?? $default`. */
  function GetFieldOption(t: FieldsOptions, path: string, option: string, default: Value): Result<Value, Error> {
    match GetFieldOptions(t, path)
    case Err(e) => Err(e)
    case Ok(options) =>
      var found := if options.M? then Lookup(options.entries, option) else None;
      Ok(if found.Some? && found.value != Null then found.value else default)
  }

  /** The path of a group marker: `$fieldPath ? "$fieldPath.$group" : $group`. */
  function GroupPath(group: string, path: Option<string>): string {
    ChildPath(path, group)
  }

  /** `hasGroupField($group, $fieldPath)`. */
  function HasGroupField(t: FieldsOptions, group: string, path: Option<string>): Result<bool, Error> {
    var full := GroupPath(group, path);
    if Given(path) && !FieldExists(t, path.value) then Err(FieldNotAvailable(path.value))
    else if group !in DEFAULT_GROUPS && !FieldExists(t, full) then Err(FieldNotAvailable(full))
    else Ok(IsFieldIncluded(t, full))
  }

  /** `hasDefaultFields($fieldPath)`. */
  function HasDefaultFields(t: FieldsOptions, path: Option<string>): Result<bool, Error> {
    HasGroupField(t, FIELD_DEFAULTS, path)
  }

  /** `hasAllFields($fieldPath)`. */
  function HasAllFields(t: FieldsOptions, path: Option<string>): Result<bool, Error> {
    HasGroupField(t, FIELD_ALL, path)
  }

  /** The loop of `getIncludedFields`: the keys of `es` whose child path is included, in order. */
  function CollectIncluded(t: FieldsOptions, path: Option<string>, es: Entries): seq<string> {
    if es == [] then []
    else
      (if IsFieldIncluded(t, ChildPath(path, es[0].0)) then [es[0].0] else [])
      + CollectIncluded(t, path, es[1..])
  }

  /** `getIncludedFields($fieldPath)`. */
  function GetIncludedFields(t: FieldsOptions, path: Option<string>): Result<seq<string>, Error> {
    if Given(path) && AssertFieldExists(t, path.value).Fail? then Err(FieldNotAvailable(path.value))
    else
      var node := ArrayExtractor.GetValue(t.data, path, Null);
      Ok(if node.M? then CollectIncluded(t, path, node.entries) else [])
  }

  /** The keys whose values are included, in order: the reference for getIncludedFields. */
  function IncludedKeys(es: Entries): (ks: seq<string>)
    ensures forall k :: k in ks ==> k in Keys(es)
  {
    if es == [] then []
    else (if Included(es[0].1) then [es[0].0] else []) + IncludedKeys(es[1..])
  }

  // ---------------------------------------------------------------- lemmas

  /** `toArray($path)` is the array at the path, else the empty array. */
  lemma ToArrayAt(t: FieldsOptions, path: string)
    ensures ToArray(t, Some(path)) ==
      match ArrayHelper.Find(M(t.data), Split(path))
      case Some(M(es)) => es
      case _ => []
  {
    ArrayExtractor.SameAsArrayHelper(t.data, Some(path), Null);
  }

  /**
   * A field is included exactly when its path leads to a set value other
   * than false; absent, null and false all read as not included, while true,
   * any array (the empty one too) and any scalar read as included.
   */
  lemma IsFieldIncludedIff(t: FieldsOptions, path: string)
    ensures IsFieldIncluded(t, path) <==>
      var found := ArrayHelper.Find(M(t.data), Split(path));
      found.Some? && Included(found.value)
  {
    ArrayExtractor.SameAsArrayHelper(t.data, Some(path), B(false));
  }

  /** A field exists exactly when its path leads to a set value. */
  lemma FieldExistsIff(t: FieldsOptions, path: string)
    ensures FieldExists(t, path) <==> ArrayHelper.Find(M(t.data), Split(path)).Some?
  {
    ArrayExtractor.SameAsArrayHelper(t.data, Some(path), Null);
  }

  /** Every included field exists. */
  lemma IncludedImpliesExists(t: FieldsOptions, path: string)
    ensures IsFieldIncluded(t, path) ==> FieldExists(t, path)
  {
    IsFieldIncludedIff(t, path);
    FieldExistsIff(t, path);
  }

  /**
   * The sentinel of `fieldExists` as written: a field whose value is the
   * string "-123qwerty", which `_opt` payloads may hold, is reported missing.
   */
  lemma FieldExistsSentinelClash()
    ensures var t := FromArray([("k", Scalar("-123qwerty"))]);
      !FieldExistsAsWritten(t, "k") && FieldExists(t, "k")
  {
    var t := FromArray([("k", Scalar("-123qwerty"))]);
    SplitNoDot("k");
    assert Split("k") == ["k"];
    ArrayExtractor.SameAsArrayHelper(t.data, Some("k"), Null);
    ArrayExtractor.SameAsArrayHelper(t.data, Some("k"), Scalar("-123qwerty"));
  }

  /** The sentinel check is right on every value other than the sentinel. */
  lemma FieldExistsAsWrittenAgrees(t: FieldsOptions, path: string)
    requires ArrayExtractor.GetValue(t.data, Some(path), Null) != Scalar("-123qwerty")
    ensures FieldExistsAsWritten(t, path) == FieldExists(t, path)
  {
    ArrayExtractor.SameAsArrayHelper(t.data, Some(path), Null);
    ArrayExtractor.SameAsArrayHelper(t.data, Some(path), Scalar("-123qwerty"));
  }

  /**
   * `getFieldOptions` fails on a missing path; otherwise it returns the set
   * value under "_opt" in the node at the path, or the empty array when that
   * node has no such value or is no array.
   */
  lemma GetFieldOptionsAt(t: FieldsOptions, path: string)
    ensures !FieldExists(t, path) ==> GetFieldOptions(t, path) == Err(FieldNotAvailable(path))
    ensures FieldExists(t, path) <==> ArrayHelper.Find(M(t.data), Split(path)).Some?
    ensures ArrayHelper.Find(M(t.data), Split(path)).Some? ==>
      var node := ArrayHelper.Find(M(t.data), Split(path)).value;
      var opt := if node.M? then Lookup(node.entries, OPTIONS_KEY) else None;
      GetFieldOptions(t, path) == Ok(if opt.Some? && opt.value != Null then opt.value else M([]))
  {
    FieldExistsIff(t, path);
    ArrayExtractor.SameAsArrayHelper(t.data, Some(path + "." + OPTIONS_KEY), M([]));
    SplitDot(path, OPTIONS_KEY);
    SplitNoDot(OPTIONS_KEY);
    ArrayHelper.FindConcat(M(t.data), Split(path), [OPTIONS_KEY]);
  }

  /**
   * `getFieldOption` returns the option when the options array sets it,
   * else the default; it fails exactly where `getFieldOptions` does.
   */
  lemma GetFieldOptionAt(t: FieldsOptions, path: string, option: string, default: Value)
    ensures GetFieldOption(t, path, option, default).Err? <==> !FieldExists(t, path)
    ensures FieldExists(t, path) ==>
      var options := GetFieldOptions(t, path).value;
      var found := if options.M? then Lookup(options.entries, option) else None;
      GetFieldOption(t, path, option, default) == Ok(if found.Some? && found.value != Null then found.value else default)
    ensures FieldExists(t, path) && '.' !in option ==>
      GetFieldOption(t, path, option, default) == Ok(ArrayHelper.Find(M(t.data), Split(path) + [OPTIONS_KEY, option]).GetOr(default))
  {
    GetFieldOptionsAt(t, path);
    if FieldExists(t, path) && '.' !in option {
      var node := ArrayHelper.Find(M(t.data), Split(path)).value;
      ArrayHelper.FindConcat(M(t.data), Split(path), [OPTIONS_KEY, option]);
      OptionBelow(node, option, default);
    }
  }

  /** Reading "_opt" then the option below a node, as `getFieldOption` reads it. */
  lemma OptionBelow(node: Value, option: string, default: Value)
    ensures var opt := if node.M? then Lookup(node.entries, OPTIONS_KEY) else None;
      var options := if opt.Some? && opt.value != Null then opt.value else M([]);
      var found := if options.M? then Lookup(options.entries, option) else None;
      ArrayHelper.Find(node, [OPTIONS_KEY, option]).GetOr(default)
        == if found.Some? && found.value != Null then found.value else default
  {
    assert [OPTIONS_KEY, option][1..] == [option];
    assert [option][1..] == [];
    if node.M? {
      var opt := Lookup(node.entries, OPTIONS_KEY);
      if opt.Some? && opt.value != Null {
        var c := opt.value;
        assert ArrayHelper.Find(node, [OPTIONS_KEY, option]) == ArrayHelper.Find(c, [option]);
        if c.M? {
          var x := Lookup(c.entries, option);
          if x.Some? && x.value != Null {
            assert ArrayHelper.Find(c, [option]) == ArrayHelper.Find(x.value, []);
          }
        }
      }
    }
  }

  /**
   * `hasGroupField` in terms of the node at the base path: it fails when a
   * given path is missing, or when a custom group is not set there; otherwise
   * it tells whether the node sets the group to an included value.
   */
  lemma HasGroupFieldAtNode(t: FieldsOptions, group: string, path: Option<string>)
    requires '.' !in group
    ensures NodeAt(t, path).None? ==> HasGroupField(t, group, path) == Err(FieldNotAvailable(path.value))
    ensures NodeAt(t, path).Some? ==>
      var node := NodeAt(t, path).value;
      var marker := if node.M? then Lookup(node.entries, group) else None;
      var isSet := marker.Some? && marker.value != Null;
      HasGroupField(t, group, path) ==
        if group !in DEFAULT_GROUPS && !isSet then Err(FieldNotAvailable(GroupPath(group, path)))
        else Ok(isSet && Included(marker.value))
  {
    var full := GroupPath(group, path);
    SplitNoDot(group);
    IsFieldIncludedIff(t, full);
    FieldExistsIff(t, full);
    if Given(path) {
      FieldExistsIff(t, path.value);
      SplitDot(path.value, group);
      ArrayHelper.FindConcat(M(t.data), Split(path.value), [group]);
    }
  }

  /**
   * `hasDefaultFields` and `hasAllFields` never fail at the root or at an
   * existing path, and are false when the marker is not set there.
   */
  lemma DefaultGroupsNeverFail(t: FieldsOptions, path: Option<string>)
    requires !Given(path) || FieldExists(t, path.value)
    ensures HasDefaultFields(t, path).Ok? && HasAllFields(t, path).Ok?
    ensures NodeAt(t, path).Some? && !NodeAt(t, path).value.M? ==> HasDefaultFields(t, path) == Ok(false)
    ensures NodeAt(t, path).Some? && NodeAt(t, path).value.M? ==>
      (FIELD_DEFAULTS !in Keys(NodeAt(t, path).value.entries) ==> HasDefaultFields(t, path) == Ok(false)) &&
      (FIELD_ALL !in Keys(NodeAt(t, path).value.entries) ==> HasAllFields(t, path) == Ok(false))
  {
    if Given(path) {
      FieldExistsIff(t, path.value);
    }
    HasGroupFieldAtNode(t, FIELD_DEFAULTS, path);
    HasGroupFieldAtNode(t, FIELD_ALL, path);
    var node := NodeAt(t, path);
    if node.Some? && node.value.M? {
      LookupKeys(node.value.entries, FIELD_DEFAULTS);
      LookupKeys(node.value.entries, FIELD_ALL);
    }
  }

  /**
   * `getIncludedFields` at the root or at a given path: it fails on a missing
   * path; otherwise it lists, in key order, exactly the keys of the node whose
   * values are included (group markers and "_opt" among them), and nothing
   * when the node is no array.
   */
  lemma GetIncludedFieldsExact(t: FieldsOptions, path: Option<string>)
    requires path.None? || TruthyString(path.value)
    requires NodeAt(t, path).Some? && NodeAt(t, path).value.M? ==>
      var es := NodeAt(t, path).value.entries;
      UniqueKeys(es) && forall i :: 0 <= i < |es| ==> '.' !in es[i].0
    ensures NodeAt(t, path).None? ==> GetIncludedFields(t, path) == Err(FieldNotAvailable(path.value))
    ensures NodeAt(t, path).Some? ==>
      var node := NodeAt(t, path).value;
      GetIncludedFields(t, path) == Ok(if node.M? then IncludedKeys(node.entries) else [])
  {
    if Given(path) {
      FieldExistsIff(t, path.value);
      ArrayExtractor.SameAsArrayHelper(t.data, path, Null);
    }
    var node := NodeAt(t, path);
    if node.Some? && node.value.M? {
      var es := node.value.entries;
      CollectIncludedExact(t, path, es, 0);
      assert es[0..] == es;
    }
  }

  lemma {:induction false} CollectIncludedExact(t: FieldsOptions, path: Option<string>, es: Entries, i: nat)
    requires path.None? || TruthyString(path.value)
    requires NodeAt(t, path) == Some(M(es))
    requires UniqueKeys(es) && forall j :: 0 <= j < |es| ==> '.' !in es[j].0
    requires i <= |es|
    ensures CollectIncluded(t, path, es[i..]) == IncludedKeys(es[i..])
    decreases |es| - i
  {
    if i < |es| {
      CollectIncludedExact(t, path, es, i + 1);
      assert es[i..][1..] == es[i + 1..];
      ChildIncluded(t, path, es, i);
    }
  }

  /**
   * A key holding a dot is read back as a path by `getIncludedFields`: in
   * `['p.q' => v]` the key "p.q" is looked up as "p" then "q", so it is never
   * listed, even when its own value v is included (`['a.b' => true]`).
   */
  lemma GetIncludedFieldsDottedKey(p: string, q: string, v: Value)
    requires '.' !in p && '.' !in q
    ensures var t := FromArray([(p + "." + q, v)]);
      GetIncludedFields(t, None) == Ok([])
      && IncludedKeys(t.data) == if Included(v) then [p + "." + q] else []
  {
    var key := p + "." + q;
    var t := FromArray([(key, v)]);
    SplitDot(p, q);
    SplitNoDot(p);
    SplitNoDot(q);
    assert |key| > |p|;
    assert Lookup(t.data, p) == None;
    assert ArrayHelper.Find(M(t.data), [p, q]) == None;
    ArrayExtractor.SameAsArrayHelper(t.data, Some(key), B(false));
    assert !IsFieldIncluded(t, ChildPath(None, key));
    assert t.data[1..] == [];
    assert CollectIncluded(t, None, t.data) == [];
  }

  /** The child path of the i-th key reads the i-th value. */
  lemma ChildIncluded(t: FieldsOptions, path: Option<string>, es: Entries, i: nat)
    requires path.None? || TruthyString(path.value)
    requires NodeAt(t, path) == Some(M(es))
    requires UniqueKeys(es) && i < |es| && '.' !in es[i].0
    ensures IsFieldIncluded(t, ChildPath(path, es[i].0)) == Included(es[i].1)
  {
    var k := es[i].0;
    var p := ChildPath(path, k);
    IsFieldIncludedIff(t, p);
    SplitNoDot(k);
    LookupUnique(es, i);
    if Given(path) {
      SplitDot(path.value, k);
      ArrayHelper.FindConcat(M(t.data), Split(path.value), [k]);
    }
  }
}
