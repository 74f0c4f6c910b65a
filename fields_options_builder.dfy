/**
 * `FieldsOptionsBuilder`: a fluent builder that accumulates a selection tree
 * by writing booleans, group markers and option maps at dotted paths.
 */
module FieldsOptionsBuilder {
  import opened Wrappers
  import opened OrderedMap
  import opened Values
  import opened Paths
  import ArrayHelper
  import FO = FieldsOptions

  /** The `\LogicException` "No fields provided". */
  datatype Error = NoFieldsProvided

  /** `$fieldPath ? "$fieldPath." : $fieldPath`, a null base reading as "" once concatenated. */
  function BasePath(path: Option<string>): string {
    if FO.Given(path) then path.value + "." else path.GetOr("")
  }

  /** The tree after writing v at base + f for every field f, in order. */
  function WriteAll(m: Entries, base: string, fields: seq<string>, v: Value): Entries
    decreases |fields|
  {
    if fields == [] then m
    else ArrayHelper.SetPath(WriteAll(m, base, fields[..|fields| - 1], v), Split(base + fields[|fields| - 1]), v)
  }

  /** What a successful `setFieldInclusion` leaves in `$data`. */
  function Inclusion(m: Entries, path: Option<string>, fields: seq<string>, included: bool): Entries
    requires FO.Given(path) || fields != []
  {
    if fields == [] then ArrayHelper.SetPath(m, Split(path.value), B(included))
    else WriteAll(m, BasePath(path), fields, B(included))
  }

  /** The path `setFieldOption` writes: "path._opt.option". */
  function OptionPath(path: string, option: string): string {
    path + "." + FO.OPTIONS_KEY + "." + option
  }

  class Builder {
    var data: Entries

    /** Every array of the tree has distinct keys, as PHP arrays do. */
    ghost predicate Valid()
      reads this
    {
      WellFormed(M(data))
    }

    constructor ()
      ensures data == [] && Valid()
    {
      data := [];
    }

    /**
     * `setFieldInclusion($fieldPath, $fields, $isIncluded)`: fails when both
     * the path and the field list are empty; otherwise writes the flag at the
     * path, or at each "path.field" in turn.
     */
    method SetFieldInclusion(path: Option<string>, fields: seq<string>, included: bool) returns (r: Result<Builder, Error>)
      requires Valid()
      modifies this
      ensures Valid()
      ensures r.Err? <==> !FO.Given(path) && fields == []
      ensures r.Err? ==> r.error == NoFieldsProvided && data == old(data)
      ensures r.Ok? ==> r.value == this && data == Inclusion(old(data), path, fields, included)
    {
      if !FO.Given(path) && fields == [] {
        return Err(NoFieldsProvided);
      }
      if fields == [] {
        ArrayHelper.SetPathWellFormed(data, Split(path.value), B(included));
        var v := ArrayHelper.SetValue(data, path, B(included));
        data := v.entries;
      } else {
        WriteFields(BasePath(path), fields, B(included));
      }
      return Ok(this);
    }

    /** The loop of `setFieldInclusion`: `ArrayHelper::setValue` at base + f for every field f, in order. */
    method WriteFields(base: string, fields: seq<string>, v: Value)
      requires Valid() && WellFormed(v)
      modifies this`data
      ensures Valid()
      ensures data == WriteAll(old(data), base, fields, v)
    {
      var i := 0;
      while i < |fields|
        invariant 0 <= i <= |fields|
        invariant data == WriteAll(old(data), base, fields[..i], v)
        invariant Valid()
      {
        ArrayHelper.SetPathWellFormed(data, Split(base + fields[i]), v);
        var r := ArrayHelper.SetValue(data, Some(base + fields[i]), v);
        WriteAllStep(old(data), base, fields, i, v);
        data := r.entries;
        i := i + 1;
      }
      assert fields[..|fields|] == fields;
    }

    /** `setFieldIncluded($fieldPath, $fields)`. */
    method SetFieldIncluded(path: Option<string>, fields: seq<string>) returns (r: Result<Builder, Error>)
      requires Valid()
      modifies this
      ensures Valid()
      ensures r.Err? <==> !FO.Given(path) && fields == []
      ensures r.Err? ==> data == old(data)
      ensures r.Ok? ==> r.value == this && data == Inclusion(old(data), path, fields, true)
    {
      r := SetFieldInclusion(path, fields, true);
    }

    /** `setFieldExcluded($fieldPath, $fields)`. */
    method SetFieldExcluded(path: Option<string>, fields: seq<string>) returns (r: Result<Builder, Error>)
      requires Valid()
      modifies this
      ensures Valid()
      ensures r.Err? <==> !FO.Given(path) && fields == []
      ensures r.Err? ==> data == old(data)
      ensures r.Ok? ==> r.value == this && data == Inclusion(old(data), path, fields, false)
    {
      r := SetFieldInclusion(path, fields, false);
    }

    /** `setFieldOption($fieldPath, $option, $value)`: writes "path._opt.option" only. */
    method SetFieldOption(path: string, option: string, value: Value) returns (self: Builder)
      requires Valid() && WellFormed(value)
      modifies this
      ensures Valid()
      ensures self == this
      ensures data == ArrayHelper.SetPath(old(data), Split(OptionPath(path, option)), value)
    {
      ArrayHelper.SetPathWellFormed(data, Split(OptionPath(path, option)), value);
      var v := ArrayHelper.SetValue(data, Some(OptionPath(path, option)), value);
      data := v.entries;
      self := this;
    }

    /** `setFieldOptions($fieldPath, $options)`: the node at the path becomes `['_opt' => $options]`. */
    method SetFieldOptions(path: string, options: Entries) returns (self: Builder)
      requires Valid() && WellFormed(M(options))
      modifies this
      ensures Valid()
      ensures self == this
      ensures data == ArrayHelper.SetPath(old(data), Split(path), M([(FO.OPTIONS_KEY, M(options))]))
    {
      var node := M([(FO.OPTIONS_KEY, M(options))]);
      assert WellFormed(node) by {
        assert UniqueKeys([(FO.OPTIONS_KEY, M(options))]);
      }
      ArrayHelper.SetPathWellFormed(data, Split(path), node);
      var v := ArrayHelper.SetValue(data, Some(path), node);
      data := v.entries;
      self := this;
    }

    /**
     * `setGroupFieldIncluded($groupField, $fieldPath)`: includes the group
     * marker at "path.group", or at "group" when no path is given; fails
     * only when that leaves an empty path.
     */
    method SetGroupFieldIncluded(group: string, path: Option<string>) returns (r: Result<Builder, Error>)
      requires Valid()
      modifies this
      ensures Valid()
      ensures r.Err? <==> !TruthyString(FO.GroupPath(group, path))
      ensures r.Err? ==> data == old(data)
      ensures r.Ok? ==> r.value == this && data == ArrayHelper.SetPath(old(data), Split(FO.GroupPath(group, path)), B(true))
    {
      var fieldPath := if !FO.Given(path) then group else path.value + "." + group;
      r := SetFieldIncluded(Some(fieldPath), []);
    }

    /** `setDefaultFieldsIncluded($fieldPath)`. */
    method SetDefaultFieldsIncluded(path: Option<string>) returns (self: Builder)
      requires Valid()
      modifies this
      ensures Valid()
      ensures self == this
      ensures data == ArrayHelper.SetPath(old(data), Split(FO.GroupPath(FO.FIELD_DEFAULTS, path)), B(true))
    {
      var r := SetGroupFieldIncluded(FO.FIELD_DEFAULTS, path);
      self := this;
    }

    /** `setAllFieldsIncluded($fieldPath)`. */
    method SetAllFieldsIncluded(path: Option<string>) returns (self: Builder)
      requires Valid()
      modifies this
      ensures Valid()
      ensures self == this
      ensures data == ArrayHelper.SetPath(old(data), Split(FO.GroupPath(FO.FIELD_ALL, path)), B(true))
    {
      var r := SetGroupFieldIncluded(FO.FIELD_ALL, path);
      self := this;
    }

    /** `build()`: the selection tree holding exactly the accumulated data. */
    method Build() returns (t: FO.FieldsOptions)
      ensures FO.ToArray(t, None) == data
    {
      t := FO.FromArray(data);
    }
  }

  // ---------------------------------------------------------------- lemmas

  /** The number of leading segments two paths share. */
  function FirstDiff(p: seq<string>, q: seq<string>): (d: nat)
    ensures d <= |p| && d <= |q| && p[..d] == q[..d]
    ensures d < |p| && d < |q| ==> p[d] != q[d]
    decreases |p|
  {
    if p == [] || q == [] || p[0] != q[0] then 0
    else
      var d := 1 + FirstDiff(p[1..], q[1..]);
      assert p[..d] == [p[0]] + p[1..][..d - 1];
      assert q[..d] == [q[0]] + q[1..][..d - 1];
      d
  }

  /** Two paths that part at some segment both have. */
  predicate Diverge(p: seq<string>, q: seq<string>) {
    FirstDiff(p, q) < |p| && FirstDiff(p, q) < |q|
  }

  /** A later write at q leaves the path p readable as written: q is p itself or parts from it. */
  predicate Compatible(p: seq<string>, q: seq<string>) {
    q == p || Diverge(p, q)
  }

  /** A write at a path that parts from p leaves what p reads unchanged. */
  lemma DivergeFrame(m: Entries, segs: seq<string>, v: Value, p: seq<string>)
    requires |segs| >= 1 && Diverge(p, segs)
    ensures ArrayHelper.Find(M(ArrayHelper.SetPath(m, segs, v)), p) == ArrayHelper.Find(M(m), p)
  {
    ArrayHelper.SetPathFrame(m, segs, v, p, FirstDiff(p, segs));
  }

  /**
   * After writing a flag at every field of a list, field i reads that flag,
   * provided every later field of the list writes the same path or one that
   * parts from it: later writes elsewhere leave it alone.
   */
  lemma {:induction false} WriteAllReadsBack(m: Entries, base: string, fields: seq<string>, v: Value, i: nat)
    requires i < |fields| && v != Null
    requires forall j :: i < j < |fields| ==> Compatible(Split(base + fields[i]), Split(base + fields[j]))
    ensures ArrayHelper.Find(M(WriteAll(m, base, fields, v)), Split(base + fields[i])) == Some(v)
    decreases |fields|
  {
    var last := |fields| - 1;
    var init := fields[..last];
    var before := WriteAll(m, base, init, v);
    var target := Split(base + fields[i]);
    var written := Split(base + fields[last]);
    assert WriteAll(m, base, fields, v) == ArrayHelper.SetPath(before, written, v);
    if i == last || written == target {
      ArrayHelper.SetPathRoundTrip(before, written, v);
    } else {
      assert Compatible(target, written);
      DivergeFrame(before, written, v, target);
      CompatibleInit(base, fields, i);
      WriteAllReadsBack(m, base, init, v, i);
    }
  }

  /** The condition of WriteAllReadsBack carries over to the list without its last field. */
  lemma CompatibleInit(base: string, fields: seq<string>, i: nat)
    requires i < |fields| - 1
    requires forall j :: i < j < |fields| ==> Compatible(Split(base + fields[i]), Split(base + fields[j]))
    ensures var init := fields[..|fields| - 1];
      init[i] == fields[i] && forall j :: i < j < |init| ==> Compatible(Split(base + init[i]), Split(base + init[j]))
  {
    var init := fields[..|fields| - 1];
    forall j | i < j < |init| ensures Compatible(Split(base + init[i]), Split(base + init[j])) {
      assert init[j] == fields[j];
    }
  }

  /** One more field writes its own path on top of the earlier ones. */
  lemma WriteAllStep(m: Entries, base: string, fields: seq<string>, i: nat, v: Value)
    requires i < |fields|
    ensures WriteAll(m, base, fields[..i + 1], v) == ArrayHelper.SetPath(WriteAll(m, base, fields[..i], v), Split(base + fields[i]), v)
  {
    assert fields[..i + 1][..i] == fields[..i];
  }

  /** Including or excluding the same path twice keeps only the second flag. */
  lemma InclusionOverwrite(m: Entries, path: string, first: bool, second: bool)
    requires TruthyString(path)
    ensures Inclusion(Inclusion(m, Some(path), [], first), Some(path), [], second) == Inclusion(m, Some(path), [], second)
  {
    ArrayHelper.SetPathOverwrite(m, Split(path), B(first), B(second));
  }

  /** A field written with `setFieldExcluded` is not included, and one written with `setFieldIncluded` is. */
  lemma InclusionIsRead(m: Entries, path: string, included: bool)
    requires TruthyString(path)
    ensures FO.IsFieldIncluded(FO.FromArray(Inclusion(m, Some(path), [], included)), path) == included
    ensures FO.FieldExists(FO.FromArray(Inclusion(m, Some(path), [], included)), path)
  {
    var t := FO.FromArray(Inclusion(m, Some(path), [], included));
    ArrayHelper.SetPathRoundTrip(m, Split(path), B(included));
    FO.IsFieldIncludedIff(t, path);
    FO.FieldExistsIff(t, path);
  }

  /** The split of "path._opt.option" for an option name without dots. */
  lemma OptionPathSplit(path: string, option: string)
    requires '.' !in option
    ensures Split(OptionPath(path, option)) == Split(path) + [FO.OPTIONS_KEY, option]
  {
    assert OptionPath(path, option) == (path + "." + FO.OPTIONS_KEY) + "." + option;
    SplitDot(path + "." + FO.OPTIONS_KEY, option);
    SplitDot(path, FO.OPTIONS_KEY);
    SplitNoDot(FO.OPTIONS_KEY);
    SplitNoDot(option);
  }

  /** After `setFieldOption`, `getFieldOption` on the built tree returns the value written. */
  lemma SetFieldOptionReadBack(m: Entries, path: string, option: string, value: Value, default: Value)
    requires '.' !in option && value != Null
    ensures FO.GetFieldOption(FO.FromArray(ArrayHelper.SetPath(m, Split(OptionPath(path, option)), value)), path, option, default) == Ok(value)
  {
    var segs := Split(OptionPath(path, option));
    var r := ArrayHelper.SetPath(m, segs, value);
    OptionPathSplit(path, option);
    ArrayHelper.SetPathRoundTrip(m, segs, value);
    ArrayHelper.FindTwoBelow(M(r), Split(path), FO.OPTIONS_KEY, option, value);
    FO.GetFieldOptionsAt(FO.FromArray(r), path);
    FO.GetFieldOptionAt(FO.FromArray(r), path, option, default);
  }

  /** `setFieldOption` keeps every other option of the same field. */
  lemma SetFieldOptionKeepsOthers(m: Entries, path: string, option: string, other: string, value: Value)
    requires '.' !in option && other != option
    ensures ArrayHelper.Find(M(ArrayHelper.SetPath(m, Split(OptionPath(path, option)), value)), Split(path) + [FO.OPTIONS_KEY, other])
         == ArrayHelper.Find(M(m), Split(path) + [FO.OPTIONS_KEY, other])
  {
    OptionPathSplit(path, option);
    var segs := Split(OptionPath(path, option));
    var p := Split(path) + [FO.OPTIONS_KEY, other];
    var d := |Split(path)| + 1;
    assert p[..d] == segs[..d];
    ArrayHelper.SetPathFrame(m, segs, value, p, d);
  }

  /**
   * After `setFieldOptions`, the field's options are exactly those given,
   * and group markers once under the field are gone.
   */
  lemma SetFieldOptionsReplaces(m: Entries, path: string, options: Entries)
    requires TruthyString(path)
    ensures var t := FO.FromArray(ArrayHelper.SetPath(m, Split(path), M([(FO.OPTIONS_KEY, M(options))])));
      FO.GetFieldOptions(t, path) == Ok(M(options))
      && FO.HasDefaultFields(t, Some(path)) == Ok(false)
      && FO.HasAllFields(t, Some(path)) == Ok(false)
  {
    var node := M([(FO.OPTIONS_KEY, M(options))]);
    var t := FO.FromArray(ArrayHelper.SetPath(m, Split(path), node));
    ArrayHelper.SetPathRoundTrip(m, Split(path), node);
    FO.GetFieldOptionsAt(t, path);
    FO.FieldExistsIff(t, path);
    FO.DefaultGroupsNeverFail(t, Some(path));
  }

  /** After `setGroupFieldIncluded`, `hasGroupField` on the built tree holds for that group. */
  lemma GroupFieldIncludedIsRead(m: Entries, group: string, path: Option<string>)
    requires TruthyString(FO.GroupPath(group, path))
    ensures FO.HasGroupField(FO.FromArray(ArrayHelper.SetPath(m, Split(FO.GroupPath(group, path)), B(true))), group, path) == Ok(true)
  {
    var full := FO.GroupPath(group, path);
    var segs := Split(full);
    var t := FO.FromArray(ArrayHelper.SetPath(m, segs, B(true)));
    ArrayHelper.SetPathRoundTrip(m, segs, B(true));
    FO.IsFieldIncludedIff(t, full);
    FO.FieldExistsIff(t, full);
    if FO.Given(path) {
      SplitDot(path.value, group);
      var n := |Split(path.value)|;
      assert segs[..n] == Split(path.value);
      ArrayHelper.SetPathCreates(m, segs, B(true), n);
      FO.FieldExistsIff(t, path.value);
    }
  }
}
