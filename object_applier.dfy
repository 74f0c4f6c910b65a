/**
 * `FieldsOptionsObjectApplier`: walks an object graph under a selection tree
 * and tells an exporter, object by object, which properties to export. Two
 * capped caches remember which (object, tree) pairs were already applied and
 * which classes were already reflected.
 */
module FieldsOptionsObjectApplier {
  import opened Wrappers
  import opened OrderedMap
  import opened Values
  import opened Paths
  import ArrayHelper
  import FO = FieldsOptions

  const MAX_REFLECTION_CACHE_SIZE := 100
  const MAX_APPLY_CACHE_SIZE := 1000

  // ------------------------------------------------------------ object graph

  /** Object identity, standing for `spl_object_hash`. */
  type ObjId = nat
  type ClassName = string

  /** An element met when iterating: an object, or anything else. */
  datatype Item = ItemObject(id: ObjId) | ItemOther

  /** A property's value as `apply` tells it apart. */
  datatype PropValue =
    | PObject(id: ObjId)
    | PArray(items: seq<Item>)
    | PScalar   // null, bool, number or string

  /** How an object iterates: not at all, rewindably over its items, or as a Generator. */
  datatype Iteration = NotIterable | Rewindable(items: seq<Item>) | Generator

  /** An object: its class, its initialised properties and how it iterates. */
  datatype Obj = Obj(cls: ClassName, values: map<string, PropValue>, iteration: Iteration)

  /**
   * The object graph and what reflection and `is_subclass_of` tell about it:
   * each class's properties in declaration order, and the pairs (sub, super)
   * of strict subclassing.
   */
  datatype Heap = Heap(classes: map<ClassName, seq<string>>, subclassOf: set<(ClassName, ClassName)>, objects: map<ObjId, Obj>)

  predicate ItemsIn(items: seq<Item>, objects: map<ObjId, Obj>) {
    forall i :: 0 <= i < |items| ==> items[i].ItemObject? ==> items[i].id in objects
  }

  predicate ValueIn(v: PropValue, objects: map<ObjId, Obj>) {
    match v
    case PObject(id) => id in objects
    case PArray(items) => ItemsIn(items, objects)
    case PScalar => true
  }

  /** Every class is known and every reference points into the graph. */
  ghost predicate HeapOk(heap: Heap) {
    forall id :: id in heap.objects ==>
      var o := heap.objects[id];
      o.cls in heap.classes
      && (forall p :: p in o.values ==> ValueIn(o.values[p], heap.objects))
      && (o.iteration.Rewindable? ==> ItemsIn(o.iteration.items, heap.objects))
  }

  /** The calls made on the exporter, in order. */
  datatype Call =
    | SetExported(target: ObjId, fields: Option<seq<string>>)
    | GetExported(target: ObjId)

  /** Reading an uninitialised typed property throws an `\Error`. */
  datatype Error = UninitialisedProperty(id: ObjId, field: string)

  // ---------------------------------------------------- recursion measure

  /** The number of nodes of a selection value. */
  function Size(v: Value): (n: nat)
    ensures n >= 1
    decreases v, 1
  {
    if v.M? then 1 + SizeFrom(v.entries, 0) else 1
  }

  function SizeFrom(es: Entries, i: nat): nat
    requires i <= |es|
    decreases M(es), 0, |es| - i
  {
    if i == |es| then 0 else Size(es[i].1) + SizeFrom(es, i + 1)
  }

  lemma {:induction false} SizeFromBound(es: Entries, i: nat, j: nat)
    requires i <= j < |es|
    ensures Size(es[j].1) <= SizeFrom(es, i)
    decreases j - i
  {
    if i < j {
      SizeFromBound(es, i + 1, j);
    }
  }

  /** Every node a walk reaches below the root is smaller than the root. */
  lemma {:induction false} FindSmaller(v: Value, segs: seq<string>)
    requires segs != [] && ArrayHelper.Find(v, segs).Some?
    ensures Size(ArrayHelper.Find(v, segs).value) < Size(v)
    decreases |segs|
  {
    var es := v.entries;
    var c := Lookup(es, segs[0]).value;
    var i := LookupIndex(es, segs[0]);
    SizeFromBound(es, 0, i);
    if |segs| > 1 {
      FindSmaller(c, segs[1..]);
    }
  }

  /** The tree `apply` passes down for a field: `new FieldsOptions($fieldsOptions->toArray($field))`. */
  function Sub(t: FO.FieldsOptions, field: string): FO.FieldsOptions {
    FO.FromArray(FO.ToArray(t, Some(field)))
  }

  /** The tree passed down for an included field is smaller than the tree itself. */
  lemma SubSmaller(t: FO.FieldsOptions, field: string)
    requires FO.IsFieldIncluded(t, field)
    ensures Size(M(Sub(t, field).data)) < Size(M(t.data))
  {
    FO.IsFieldIncludedIff(t, field);
    FO.ToArrayAt(t, field);
    FindSmaller(M(t.data), Split(field));
  }

  // ------------------------------------------------------ inclusion rule

  /**
   * Whether the group markers bring in a property: under `_all` every
   * unspecified one; else under `_defaults` every unspecified one when the
   * exporter lists no defaults, and the unspecified listed ones otherwise.
   */
  predicate ByGroup(t: FO.FieldsOptions, field: string, hasAll: bool, hasDefault: bool, defaults: seq<string>) {
    if hasAll then !FO.IsFieldSpecified(t, field)
    else if hasDefault then
      (defaults == [] && !FO.IsFieldSpecified(t, field))
      || (defaults != [] && field in defaults && !FO.IsFieldSpecified(t, field))
    else false
  }

  /** What one property adds to the list: once for the group rule, once more when included. */
  function Contribution(t: FO.FieldsOptions, field: string, hasAll: bool, hasDefault: bool, defaults: seq<string>): seq<string> {
    (if ByGroup(t, field, hasAll, hasDefault, defaults) then [field] else [])
    + (if FO.IsFieldIncluded(t, field) then [field] else [])
  }

  /** The list the loop accumulates for the properties `props`. */
  function ExportedFields(t: FO.FieldsOptions, props: seq<string>, hasAll: bool, hasDefault: bool, defaults: seq<string>): seq<string>
    decreases |props|
  {
    if props == [] then []
    else
      ExportedFields(t, props[..|props| - 1], hasAll, hasDefault, defaults)
      + Contribution(t, props[|props| - 1], hasAll, hasDefault, defaults)
  }

  /**
   * The reference rule: a property is exported when it is included
   * explicitly, or when it is not specified at all and a group brings it in.
   */
  predicate Exported(t: FO.FieldsOptions, field: string, hasAll: bool, hasDefault: bool, defaults: seq<string>) {
    FO.IsFieldIncluded(t, field)
    || (!FO.IsFieldSpecified(t, field) && (hasAll || (hasDefault && (defaults == [] || field in defaults))))
  }

  /** The properties that Exported selects, in declaration order. */
  function Selected(t: FO.FieldsOptions, props: seq<string>, hasAll: bool, hasDefault: bool, defaults: seq<string>): seq<string>
    decreases |props|
  {
    if props == [] then []
    else
      var field := props[|props| - 1];
      Selected(t, props[..|props| - 1], hasAll, hasDefault, defaults)
      + (if Exported(t, field, hasAll, hasDefault, defaults) then [field] else [])
  }

  /** One more property extends the accumulated list by its own contribution. */
  lemma ExportedFieldsStep(t: FO.FieldsOptions, props: seq<string>, i: nat, hasAll: bool, hasDefault: bool, defaults: seq<string>)
    requires i < |props|
    ensures ExportedFields(t, props[..i + 1], hasAll, hasDefault, defaults)
         == ExportedFields(t, props[..i], hasAll, hasDefault, defaults) + Contribution(t, props[i], hasAll, hasDefault, defaults)
  {
    assert props[..i + 1][..i] == props[..i];
  }

  /**
   * The accumulated list is the declared properties filtered by the rule,
   * in order: the group rule and the explicit rule never both add a
   * property, since an included field is always specified.
   */
  lemma {:induction false} ExportedFieldsSelected(t: FO.FieldsOptions, props: seq<string>, hasAll: bool, hasDefault: bool, defaults: seq<string>)
    ensures ExportedFields(t, props, hasAll, hasDefault, defaults) == Selected(t, props, hasAll, hasDefault, defaults)
    decreases |props|
  {
    if props != [] {
      var field := props[|props| - 1];
      ExportedFieldsSelected(t, props[..|props| - 1], hasAll, hasDefault, defaults);
      FO.IncludedImpliesExists(t, field);
    }
  }

  /** A property is in the exported list exactly when it is declared and the rule selects it. */
  lemma {:induction false} ExportedFieldsMember(t: FO.FieldsOptions, props: seq<string>, hasAll: bool, hasDefault: bool, defaults: seq<string>, f: string)
    ensures f in ExportedFields(t, props, hasAll, hasDefault, defaults) <==> f in props && Exported(t, f, hasAll, hasDefault, defaults)
    decreases |props|
  {
    ExportedFieldsSelected(t, props, hasAll, hasDefault, defaults);
    SelectedMember(t, props, hasAll, hasDefault, defaults, f);
  }

  lemma {:induction false} SelectedMember(t: FO.FieldsOptions, props: seq<string>, hasAll: bool, hasDefault: bool, defaults: seq<string>, f: string)
    ensures f in Selected(t, props, hasAll, hasDefault, defaults) <==> f in props && Exported(t, f, hasAll, hasDefault, defaults)
    decreases |props|
  {
    if props != [] {
      var init := props[..|props| - 1];
      SelectedMember(t, init, hasAll, hasDefault, defaults, f);
      assert props == init + [props[|props| - 1]];
    }
  }

  /** Distinct declared properties give an exported list without repeats. */
  lemma {:induction false} ExportedFieldsDistinct(t: FO.FieldsOptions, props: seq<string>, hasAll: bool, hasDefault: bool, defaults: seq<string>)
    requires forall i, j :: 0 <= i < j < |props| ==> props[i] != props[j]
    ensures var r := ExportedFields(t, props, hasAll, hasDefault, defaults);
      forall i, j :: 0 <= i < j < |r| ==> r[i] != r[j]
    decreases |props|
  {
    ExportedFieldsSelected(t, props, hasAll, hasDefault, defaults);
    SelectedDistinct(t, props, hasAll, hasDefault, defaults);
  }

  lemma {:induction false} SelectedDistinct(t: FO.FieldsOptions, props: seq<string>, hasAll: bool, hasDefault: bool, defaults: seq<string>)
    requires forall i, j :: 0 <= i < j < |props| ==> props[i] != props[j]
    ensures var r := Selected(t, props, hasAll, hasDefault, defaults);
      forall i, j :: 0 <= i < j < |r| ==> r[i] != r[j]
    decreases |props|
  {
    if props != [] {
      var init := props[..|props| - 1];
      var last := props[|props| - 1];
      SelectedDistinct(t, init, hasAll, hasDefault, defaults);
      SelectedMember(t, init, hasAll, hasDefault, defaults, last);
      assert last !in init by {
        forall i | 0 <= i < |init| ensures init[i] != last {
          assert init[i] == props[i];
        }
      }
    }
  }

  /** A property specified but not included (marked false, say) is never exported. */
  lemma ExcludedNeverExported(t: FO.FieldsOptions, props: seq<string>, hasAll: bool, hasDefault: bool, defaults: seq<string>, f: string)
    requires FO.IsFieldSpecified(t, f) && !FO.IsFieldIncluded(t, f)
    ensures f !in ExportedFields(t, props, hasAll, hasDefault, defaults)
  {
    ExportedFieldsMember(t, props, hasAll, hasDefault, defaults, f);
  }

  // ------------------------------------------------------ dead fast paths

  /** A PHP array key after PHP's cast: an integer or a string. */
  datatype ArrayKey = IntKey(n: int) | StrKey(s: string)

  /** The scalars the fast-path comparisons meet: strings in the list, bools in the maps. */
  datatype Scalar = SStr(s: string) | SBool(b: bool)

  /** s is a string of decimal digits. */
  predicate AllDigits(s: string) {
    forall k :: 0 <= k < |s| ==> '0' <= s[k] <= '9'
  }

  function DigitsValue(s: string): nat
    requires AllDigits(s)
    decreases |s|
  {
    if s == [] then 0 else 10 * DigitsValue(s[..|s| - 1]) + (s[|s| - 1] as int - '0' as int)
  }

  /** A canonical decimal integer: "0", or digits without a leading zero, possibly after "-". */
  predicate CanonicalNonNegative(s: string) {
    AllDigits(s) && (s == "0" || (|s| > 0 && s[0] != '0'))
  }

  /** The key a string literal becomes in `[$key => ...]`: canonical integers turn into integer keys. */
  function CastKey(s: string): (k: ArrayKey)
    ensures k.StrKey? ==> k.s == s
  {
    if CanonicalNonNegative(s) then IntKey(DigitsValue(s))
    else if |s| > 1 && s[0] == '-' && s[1] != '0' && AllDigits(s[1..]) then IntKey(-(DigitsValue(s[1..]) as int))
    else StrKey(s)
  }

  /** A list of strings as a PHP array: integer keys 0, 1, ... in order. */
  function ListArray(list: seq<string>): (a: seq<(ArrayKey, Scalar)>)
    ensures |a| == |list| && forall i :: 0 <= i < |list| ==> a[i] == (IntKey(i), SStr(list[i]))
  {
    seq(|list|, i requires 0 <= i < |list| => (IntKey(i), SStr(list[i])))
  }

  /** Loose `==` on the scalars: a string against a bool compares its truth value. */
  predicate LooseScalarEq(x: Scalar, y: Scalar) {
    match (x, y)
    case (SStr(a), SStr(b)) => a == b
    case (SBool(a), SBool(b)) => a == b
    case (SStr(a), SBool(b)) => TruthyString(a) == b
    case (SBool(a), SStr(b)) => a == TruthyString(b)
  }

  /** The pair of `b` under key k, when b sets k to a value loosely equal to x. */
  predicate HasLooseEntry(b: seq<(ArrayKey, Scalar)>, k: ArrayKey, x: Scalar) {
    exists j :: 0 <= j < |b| && b[j].0 == k && LooseScalarEq(x, b[j].1)
  }

  /**
   * PHP's loose `==` on arrays with distinct keys: as many pairs, and every
   * key of the first set in the second to a loosely equal value.
   */
  predicate LooseArrayEq(a: seq<(ArrayKey, Scalar)>, b: seq<(ArrayKey, Scalar)>) {
    |a| == |b| && forall i :: 0 <= i < |a| ==> HasLooseEntry(b, a[i].0, a[i].1)
  }

  /** `[$key => $flag]` for a string literal key. */
  function OneEntry(key: string, flag: bool): seq<(ArrayKey, Scalar)> {
    [(CastKey(key), SBool(flag))]
  }

  /** A one-entry map equals a list only when its key casts to the list's only index, 0. */
  lemma ListEqualsOneEntry(list: seq<string>, key: string, flag: bool)
    requires LooseArrayEq(ListArray(list), OneEntry(key, flag))
    ensures |list| == 1 && CastKey(key) == IntKey(0) && TruthyString(list[0]) == flag
  {
    var a := ListArray(list);
    assert |a| == 1;
    assert HasLooseEntry(OneEntry(key, flag), a[0].0, a[0].1);
  }

  /** The key "0" does make such a comparison hold: the cast is what rules the group names out. */
  lemma ZeroKeyEqualsList(s: string)
    requires TruthyString(s)
    ensures LooseArrayEq(ListArray([s]), OneEntry("0", true))
  {
    assert CanonicalNonNegative("0");
    assert DigitsValue("0") == 0 by {
      assert "0"[..0] == [];
    }
    var b := OneEntry("0", true);
    assert b[0].0 == IntKey(0) && LooseScalarEq(SStr(s), b[0].1);
    assert HasLooseEntry(b, ListArray([s])[0].0, ListArray([s])[0].1);
  }

  /**
   * The fast paths of `apply` compare the list `getIncludedFields` returns
   * with `['_all' => true]`, `['_defaults' => true]` and `['_defaults' => false]`;
   * the group names are not integers, so none of these holds.
   */
  lemma FastPathsNeverTaken(included: seq<string>)
    ensures !LooseArrayEq(ListArray(included), OneEntry(FO.FIELD_ALL, true))
    ensures !LooseArrayEq(ListArray(included), OneEntry(FO.FIELD_DEFAULTS, true))
    ensures !LooseArrayEq(ListArray(included), OneEntry(FO.FIELD_DEFAULTS, false))
  {
    assert FO.FIELD_ALL[0] == '_' && FO.FIELD_DEFAULTS[0] == '_';
    assert !AllDigits(FO.FIELD_ALL) && !AllDigits(FO.FIELD_DEFAULTS);
    if LooseArrayEq(ListArray(included), OneEntry(FO.FIELD_ALL, true)) {
      ListEqualsOneEntry(included, FO.FIELD_ALL, true);
    }
    if LooseArrayEq(ListArray(included), OneEntry(FO.FIELD_DEFAULTS, true)) {
      ListEqualsOneEntry(included, FO.FIELD_DEFAULTS, true);
    }
    if LooseArrayEq(ListArray(included), OneEntry(FO.FIELD_DEFAULTS, false)) {
      ListEqualsOneEntry(included, FO.FIELD_DEFAULTS, false);
    }
  }

  // --------------------------------------------------------------- caches

  /**
   * A capped insertion: when the cache holds more than `max` entries the
   * oldest one goes first; the key is then set, in place when present, at
   * the end otherwise.
   */
  function EvictThenPut<K(==,!new), V>(cache: seq<(K, V)>, k: K, v: V, max: nat): (r: seq<(K, V)>)
    ensures |cache| <= max + 1 ==> |r| <= max + 1
    ensures Lookup(r, k) == Some(v)
    ensures forall k' :: k' != k && (|cache| <= max || k' != cache[0].0) ==> Lookup(r, k') == Lookup(cache, k')
  {
    Put(if |cache| > max then cache[1..] else cache, k, v)
  }

  /** A capped insertion keeps keys distinct and adds no entry but the new one. */
  lemma EvictThenPutEntries<K(!new), V>(cache: seq<(K, V)>, k: K, v: V, max: nat)
    ensures UniqueKeys(cache) ==> UniqueKeys(EvictThenPut(cache, k, v, max))
    ensures forall e :: e in EvictThenPut(cache, k, v, max) ==> e == (k, v) || e in cache
  {
    var kept := if |cache| > max then cache[1..] else cache;
    var r := Put(kept, k, v);
    if UniqueKeys(cache) {
      assert UniqueKeys(kept);
      PutUnique(kept, k, v);
    }
    forall e | e in r ensures e == (k, v) || e in cache {
      var i :| 0 <= i < |r| && r[i] == e;
      PutEntries(kept, k, v, i);
    }
  }

  // ------------------------------------------------------- recursion rule

  /** The objects among some items, in order. */
  function ObjectItems(items: seq<Item>): (ids: seq<ObjId>)
    ensures forall j :: 0 <= j < |ids| ==> ItemObject(ids[j]) in items
  {
    if items == [] then []
    else (if items[0].ItemObject? then [items[0].id] else []) + ObjectItems(items[1..])
  }

  /**
   * The objects `apply` is called on for an included property's value: a
   * non-iterable object, or an instance of a strict subclass of the supported
   * class, itself; the object items of any other iterable except a
   * Generator; nothing for anything else.
   */
  function Recipients(heap: Heap, supported: Option<ClassName>, v: PropValue): (ids: seq<ObjId>)
    requires HeapOk(heap) && ValueIn(v, heap.objects)
    ensures forall j :: 0 <= j < |ids| ==> ids[j] in heap.objects
  {
    match v
    case PObject(id) =>
      var o := heap.objects[id];
      if o.iteration.NotIterable? || (supported.Some? && (o.cls, supported.value) in heap.subclassOf) then [id]
      else if o.iteration.Rewindable? then ObjectItems(o.iteration.items)
      else []
    case PArray(items) => ObjectItems(items)
    case PScalar => []
  }

  /** The (object, tree) pairs `apply` recurses into from an object with declared properties `props`. */
  function Children(heap: Heap, supported: Option<ClassName>, o: Obj, t: FO.FieldsOptions, props: seq<string>): (r: seq<(ObjId, FO.FieldsOptions)>)
    requires HeapOk(heap) && forall p :: p in o.values ==> ValueIn(o.values[p], heap.objects)
    ensures forall j :: 0 <= j < |r| ==> Size(M(r[j].1.data)) < Size(M(t.data))
    decreases |props|
  {
    if props == [] then []
    else
      var field := props[|props| - 1];
      Children(heap, supported, o, t, props[..|props| - 1])
      + (if FO.IsFieldIncluded(t, field) && field in o.values then
           SubSmaller(t, field);
           Pairs(Recipients(heap, supported, o.values[field]), Sub(t, field))
         else [])
  }

  function Pairs(ids: seq<ObjId>, t: FO.FieldsOptions): (r: seq<(ObjId, FO.FieldsOptions)>)
    ensures |r| == |ids| && forall j :: 0 <= j < |ids| ==> r[j] == (ids[j], t)
  {
    seq(|ids|, j requires 0 <= j < |ids| => (ids[j], t))
  }

  /**
   * x is reached from `id` under tree t: it is `id` itself, or it is reached
   * from an object `apply` recurses into, under the tree passed down.
   */
  ghost predicate Reach(heap: Heap, supported: Option<ClassName>, id: ObjId, t: FO.FieldsOptions, x: ObjId)
    requires HeapOk(heap)
    decreases Size(M(t.data)), 1
  {
    x == id
    || (id in heap.objects &&
        var o := heap.objects[id];
        ReachVia(heap, supported, Children(heap, supported, o, t, heap.classes[o.cls]), Size(M(t.data)), x))
  }

  /** x is reached from one of the pairs, whose trees are all smaller than `bound`. */
  ghost predicate ReachVia(heap: Heap, supported: Option<ClassName>, pairs: seq<(ObjId, FO.FieldsOptions)>, bound: nat, x: ObjId)
    requires HeapOk(heap)
    requires forall j :: 0 <= j < |pairs| ==> Size(M(pairs[j].1.data)) < bound
    decreases bound, 0
  {
    exists j :: 0 <= j < |pairs| && Reach(heap, supported, pairs[j].0, pairs[j].1, x)
  }

  /** Every prefix of the declared properties yields a prefix of the pairs. */
  lemma {:induction false} ChildrenPrefix(heap: Heap, supported: Option<ClassName>, o: Obj, t: FO.FieldsOptions, props: seq<string>, i: nat)
    requires HeapOk(heap) && forall p :: p in o.values ==> ValueIn(o.values[p], heap.objects)
    requires i <= |props|
    ensures Children(heap, supported, o, t, props[..i]) <= Children(heap, supported, o, t, props)
    decreases |props| - i
  {
    if i < |props| {
      var init := props[..|props| - 1];
      assert props[..i] == init[..i];
      ChildrenPrefix(heap, supported, o, t, init, i);
    } else {
      assert props[..i] == props;
    }
  }

  /** The pairs for the first i + 1 properties: those for the first i, then those of property i. */
  lemma ChildrenStep(heap: Heap, supported: Option<ClassName>, o: Obj, t: FO.FieldsOptions, props: seq<string>, i: nat)
    requires HeapOk(heap) && forall p :: p in o.values ==> ValueIn(o.values[p], heap.objects)
    requires i < |props|
    ensures FO.IsFieldIncluded(t, props[i]) && props[i] in o.values ==>
      Children(heap, supported, o, t, props[..i + 1])
      == Children(heap, supported, o, t, props[..i]) + Pairs(Recipients(heap, supported, o.values[props[i]]), Sub(t, props[i]))
  {
    assert props[..i + 1][..i] == props[..i];
  }

  /**
   * What is reached from the j-th object `apply` recurses into for the
   * included, initialised property i is reached from the object owning it.
   */
  lemma ReachThroughField(heap: Heap, supported: Option<ClassName>, id: ObjId, t: FO.FieldsOptions,
                          i: nat, rs: seq<ObjId>, j: nat, x: ObjId)
    requires HeapOk(heap) && id in heap.objects
    requires i < |heap.classes[heap.objects[id].cls]|
    requires FO.IsFieldIncluded(t, heap.classes[heap.objects[id].cls][i])
    requires heap.classes[heap.objects[id].cls][i] in heap.objects[id].values
    requires rs == Recipients(heap, supported, heap.objects[id].values[heap.classes[heap.objects[id].cls][i]])
    requires j < |rs| && Reach(heap, supported, rs[j], Sub(t, heap.classes[heap.objects[id].cls][i]), x)
    ensures Reach(heap, supported, id, t, x)
  {
    var o := heap.objects[id];
    var props := heap.classes[o.cls];
    var before := Children(heap, supported, o, t, props[..i]);
    var mid := Pairs(rs, Sub(t, props[i]));
    ChildrenStep(heap, supported, o, t, props, i);
    ChildrenPrefix(heap, supported, o, t, props, i + 1);
    ReachViaPrefixed(heap, supported, before, mid, Children(heap, supported, o, t, props), Size(M(t.data)), j, x);
  }

  /** What is reached from a pair inside the pairs is reached via the pairs. */
  lemma ReachViaPrefixed(heap: Heap, supported: Option<ClassName>, pre: seq<(ObjId, FO.FieldsOptions)>, mid: seq<(ObjId, FO.FieldsOptions)>,
                         pairs: seq<(ObjId, FO.FieldsOptions)>, bound: nat, m: nat, x: ObjId)
    requires HeapOk(heap)
    requires pre + mid <= pairs
    requires forall j :: 0 <= j < |pairs| ==> Size(M(pairs[j].1.data)) < bound
    requires m < |mid| && Reach(heap, supported, mid[m].0, mid[m].1, x)
    ensures ReachVia(heap, supported, pairs, bound, x)
  {
    assert pairs[|pre| + m] == (pre + mid)[|pre| + m] == mid[m];
  }

  /** A call about `id` itself may be added to the log. */
  lemma ExtendsOwnCall(heap: Heap, supported: Option<ClassName>, id: ObjId, t: FO.FieldsOptions, log: seq<Call>, call: Call)
    requires HeapOk(heap) && call.target == id
    ensures Extends(heap, supported, id, t, log, log + [call])
  {
    assert (log + [call])[|log|] == call;
  }

  /** Growing the log twice, each time by reached objects, is growing it once. */
  lemma ExtendsTrans(heap: Heap, supported: Option<ClassName>, id: ObjId, t: FO.FieldsOptions, a: seq<Call>, b: seq<Call>, c: seq<Call>)
    requires HeapOk(heap)
    requires Extends(heap, supported, id, t, a, b) && Extends(heap, supported, id, t, b, c)
    ensures Extends(heap, supported, id, t, a, c)
  {
    forall k | |a| <= k < |c| ensures Reach(heap, supported, id, t, c[k].target) {
      if k < |b| {
        assert c[k] == b[k];
      }
    }
  }

  /** x is reached from one of the objects, each under tree t. */
  ghost predicate ReachFromAny(heap: Heap, supported: Option<ClassName>, ids: seq<ObjId>, t: FO.FieldsOptions, x: ObjId)
    requires HeapOk(heap)
  {
    exists n :: 0 <= n < |ids| && Reach(heap, supported, ids[n], t, x)
  }

  /** The call log grew, and every call added concerns an object reached from one of `ids`. */
  ghost predicate ExtendsFromAny(heap: Heap, supported: Option<ClassName>, ids: seq<ObjId>, t: FO.FieldsOptions, before: seq<Call>, after: seq<Call>)
    requires HeapOk(heap)
  {
    before <= after && forall k :: |before| <= k < |after| ==> ReachFromAny(heap, supported, ids, t, after[k].target)
  }

  /**
   * The call log grew from `before` to `after`, and every call added
   * concerns an object reached from `id` under t.
   */
  ghost predicate Extends(heap: Heap, supported: Option<ClassName>, id: ObjId, t: FO.FieldsOptions, before: seq<Call>, after: seq<Call>)
    requires HeapOk(heap)
  {
    before <= after && forall k :: |before| <= k < |after| ==> Reach(heap, supported, id, t, after[k].target)
  }

  // ------------------------------------------------------------- applier

  /** The reflection cache after `getReflection` for a class with properties `props`. */
  function ReflectionAfter(cache: seq<(ClassName, seq<string>)>, cls: ClassName, props: seq<string>): seq<(ClassName, seq<string>)> {
    if Lookup(cache, cls).Some? then cache else EvictThenPut(cache, cls, props, MAX_REFLECTION_CACHE_SIZE)
  }

  /** Property `field` of `o` leads `apply` to no object: it is uninitialised or its value holds no supported object. */
  ghost predicate Inert(heap: Heap, supported: Option<ClassName>, o: Obj, field: string)
    requires HeapOk(heap) && forall p :: p in o.values ==> ValueIn(o.values[p], heap.objects)
  {
    field !in o.values || Recipients(heap, supported, o.values[field]) == []
  }

  /** When an object recurses into nothing, no included, initialised property has a recipient. */
  lemma LeafNoRecursion(heap: Heap, supported: Option<ClassName>, o: Obj, t: FO.FieldsOptions, props: seq<string>, i: nat)
    requires HeapOk(heap) && forall p :: p in o.values ==> ValueIn(o.values[p], heap.objects)
    requires i < |props| && Children(heap, supported, o, t, props) == []
    ensures FO.IsFieldIncluded(t, props[i]) ==> Inert(heap, supported, o, props[i])
  {
    ChildrenPrefix(heap, supported, o, t, props, i + 1);
    ChildrenStep(heap, supported, o, t, props, i);
  }

  /** `hasDefaultFields()` at the root; it never fails there. */
  function HasDefault(t: FO.FieldsOptions): bool {
    FO.HasDefaultFields(t, None).value
  }

  /** `hasAllFields()` at the root; it never fails there. */
  function HasAll(t: FO.FieldsOptions): bool {
    FO.HasAllFields(t, None).value
  }

  /** The live early return: nothing included and `_defaults` not specified. */
  predicate NothingRequested(t: FO.FieldsOptions) {
    FO.GetIncludedFields(t, None).value == [] && !FO.IsFieldSpecified(t, FO.FIELD_DEFAULTS)
  }

  class Applier {
    /** The object graph and its reflection data. */
    const heap: Heap
    /** The exporter's `getSupportedClass()`, when it names one. */
    const supported: Option<ClassName>
    /** The exporter's `getExportedFields($object)` answer, given every call it received before. */
    const exporter: (ObjId, seq<Call>) -> seq<string>
    /** `FieldsOptions::getHash()`, whose definition is not part of this model. */
    const hash: FO.FieldsOptions -> string

    var reflectionCache: seq<(ClassName, seq<string>)>
    /** Object id to the hash of the tree last applied to it. */
    var applyCache: seq<(ObjId, string)>
    var calls: seq<Call>

    /** Both caches stay within their caps plus one, and reflection data is never stale. */
    ghost predicate Valid()
      reads this
    {
      HeapOk(heap)
      && UniqueKeys(applyCache) && |applyCache| <= MAX_APPLY_CACHE_SIZE + 1
      && UniqueKeys(reflectionCache) && |reflectionCache| <= MAX_REFLECTION_CACHE_SIZE + 1
      && forall e :: e in reflectionCache ==> e.0 in heap.classes && e.1 == heap.classes[e.0]
    }

    constructor (heap: Heap, supported: Option<ClassName>, exporter: (ObjId, seq<Call>) -> seq<string>, hash: FO.FieldsOptions -> string)
      requires HeapOk(heap)
      ensures Valid()
      ensures this.heap == heap && this.supported == supported && this.exporter == exporter && this.hash == hash
      ensures reflectionCache == [] && applyCache == [] && calls == []
    {
      this.heap := heap;
      this.supported := supported;
      this.exporter := exporter;
      this.hash := hash;
      reflectionCache := [];
      applyCache := [];
      calls := [];
    }

    /**
     * The call that ends `apply` for object `id` under t: the exported list
     * per the inclusion rule, with the exporter's defaults as it answered
     * them given the calls it had received before.
     */
    function ExportCall(id: ObjId, t: FO.FieldsOptions, before: seq<Call>): Call
      requires HeapOk(heap) && id in heap.objects
    {
      SetExported(id, Some(ExportedFields(t, heap.classes[heap.objects[id].cls], HasAll(t), HasDefault(t),
                                          if HasDefault(t) then exporter(id, before) else [])))
    }

    /**
     * How a full `apply` of object `id` under t leaves the call log, from
     * `before` to `after`: with `_defaults` set, the exporter is first asked
     * for its defaults; on success, the last call hands it the exported list.
     */
    ghost predicate ExportLogged(id: ObjId, t: FO.FieldsOptions, before: seq<Call>, after: seq<Call>, r: Outcome<Error>)
      requires HeapOk(heap) && id in heap.objects
    {
      && (HasDefault(t) ==> |after| > |before| && after[|before|] == GetExported(id))
      && (r.Pass? ==> |after| > |before| && after[|after| - 1] == ExportCall(id, t, before))
    }

    /** Object `id` has no included, initialised property leading to an object `apply` recurses into. */
    ghost predicate Leaf(id: ObjId, t: FO.FieldsOptions)
      requires HeapOk(heap) && id in heap.objects
    {
      Children(heap, supported, heap.objects[id], t, heap.classes[heap.objects[id].cls]) == []
    }

    /**
     * `cacheObject($object, $fieldsOptions)`: true, changing nothing, when
     * this tree was the last one applied to the object; otherwise records it,
     * evicting the oldest entry first when the cache is over its cap.
     */
    method CacheObject(id: ObjId, t: FO.FieldsOptions) returns (hit: bool)
      requires Valid()
      modifies this`applyCache
      ensures Valid()
      ensures hit <==> Lookup(old(applyCache), id) == Some(hash(t))
      ensures applyCache == if hit then old(applyCache) else EvictThenPut(old(applyCache), id, hash(t), MAX_APPLY_CACHE_SIZE)
    {
      hit := Lookup(applyCache, id) == Some(hash(t));
      if hit {
        return;
      }
      var cache := applyCache;
      if |cache| > MAX_APPLY_CACHE_SIZE {
        cache := cache[1..];
      }
      cache := Put(cache, id, hash(t));
      EvictThenPutEntries(applyCache, id, hash(t), MAX_APPLY_CACHE_SIZE);
      applyCache := cache;
    }

    /**
     * `getReflection($object)`: the class's properties, from the cache when
     * present, else computed and recorded with the same capped eviction.
     */
    method GetReflection(cls: ClassName) returns (props: seq<string>)
      requires Valid() && cls in heap.classes
      modifies this`reflectionCache
      ensures Valid()
      ensures props == heap.classes[cls]
      ensures reflectionCache == ReflectionAfter(old(reflectionCache), cls, props)
    {
      var cached := Lookup(reflectionCache, cls);
      if cached.Some? {
        var i := LookupIndex(reflectionCache, cls);
        assert reflectionCache[i] in reflectionCache;
        return cached.value;
      }
      props := heap.classes[cls];
      var cache := reflectionCache;
      if |cache| > MAX_REFLECTION_CACHE_SIZE {
        cache := cache[1..];
      }
      cache := Put(cache, cls, props);
      EvictThenPutEntries(reflectionCache, cls, props, MAX_REFLECTION_CACHE_SIZE);
      reflectionCache := cache;
    }

    /**
     * `apply($object, $fieldsOptions)`. Nothing happens on a cache hit or
     * when nothing is requested; otherwise every included property is
     * applied recursively with its sub-tree, and the exporter is told the
     * exported list. Every exporter call concerns an object reached through
     * included properties.
     */
    method Apply(id: ObjId, t: FO.FieldsOptions) returns (r: Outcome<Error>)
      requires Valid() && id in heap.objects
      modifies this
      decreases Size(M(t.data)), 5
      ensures Valid()
      ensures Extends(heap, supported, id, t, old(calls), calls)
      ensures Lookup(old(applyCache), id) == Some(hash(t)) ==>
        r.Pass? && calls == old(calls) && applyCache == old(applyCache) && reflectionCache == old(reflectionCache)
      ensures Lookup(old(applyCache), id) != Some(hash(t)) && NothingRequested(t) ==>
        r.Pass? && calls == old(calls) && reflectionCache == old(reflectionCache)
        && applyCache == EvictThenPut(old(applyCache), id, hash(t), MAX_APPLY_CACHE_SIZE)
      ensures Lookup(old(applyCache), id) != Some(hash(t)) && !NothingRequested(t) ==> ExportLogged(id, t, old(calls), calls, r)
      ensures Lookup(old(applyCache), id) != Some(hash(t)) && !NothingRequested(t) && Leaf(id, t) ==>
        applyCache == EvictThenPut(old(applyCache), id, hash(t), MAX_APPLY_CACHE_SIZE)
        && reflectionCache == ReflectionAfter(old(reflectionCache), heap.objects[id].cls, heap.classes[heap.objects[id].cls])
    {
      var hit := CacheObject(id, t);
      if hit {
        return Pass;
      }
      if NothingRequested(t) {
        return Pass;
      }
      assert calls == old(calls);
      r := Export(id, t);
    }

    /**
     * The part of `apply` after the early returns: consult the exporter's
     * defaults when `_defaults` is set, recurse into the properties, and
     * hand the exporter the list.
     */
    method Export(id: ObjId, t: FO.FieldsOptions) returns (r: Outcome<Error>)
      requires Valid() && id in heap.objects
      modifies this
      decreases Size(M(t.data)), 4
      ensures Valid()
      ensures Extends(heap, supported, id, t, old(calls), calls)
      ensures ExportLogged(id, t, old(calls), calls, r)
      ensures Leaf(id, t) ==>
        applyCache == old(applyCache)
        && reflectionCache == ReflectionAfter(old(reflectionCache), heap.objects[id].cls, heap.classes[heap.objects[id].cls])
    {
      var props := GetReflection(heap.objects[id].cls);
      var defaults := ConsultDefaults(id, t);
      ghost var consulted := calls;
      r := ExportProperties(id, t, props, defaults, old(calls));
      ExtendsTrans(heap, supported, id, t, old(calls), consulted, calls);
    }

    /**
     * The loop over the declared properties, then `setExportedFields` with
     * the list when no property failed; `before` is the call log the
     * defaults were asked with.
     */
    method ExportProperties(id: ObjId, t: FO.FieldsOptions, props: seq<string>, defaults: seq<string>, ghost before: seq<Call>)
      returns (r: Outcome<Error>)
      requires Valid() && id in heap.objects && props == heap.classes[heap.objects[id].cls]
      requires defaults == if HasDefault(t) then exporter(id, before) else []
      modifies this
      decreases Size(M(t.data)), 3
      ensures Valid()
      ensures Extends(heap, supported, id, t, old(calls), calls)
      ensures r.Pass? ==> |calls| > |old(calls)| && calls[|calls| - 1] == ExportCall(id, t, before)
      ensures Leaf(id, t) ==> applyCache == old(applyCache) && reflectionCache == old(reflectionCache)
    {
      var fields;
      r, fields := VisitProperties(id, t, props, FO.HasAllFields(t, None).value, FO.HasDefaultFields(t, None).value, defaults);
      if r.Fail? {
        return;
      }
      ghost var visited := calls;
      ExtendsOwnCall(heap, supported, id, t, calls, SetExported(id, Some(fields)));
      calls := calls + [SetExported(id, Some(fields))];
      ExtendsTrans(heap, supported, id, t, old(calls), visited, calls);
    }

    /**
     * `hasDefaultFields()` and, when it holds, the exporter's
     * `getExportedFields($object)` answer; otherwise no defaults.
     */
    method ConsultDefaults(id: ObjId, t: FO.FieldsOptions) returns (defaults: seq<string>)
      requires Valid() && id in heap.objects
      modifies this`calls
      ensures Valid()
      ensures defaults == if HasDefault(t) then exporter(id, old(calls)) else []
      ensures calls == if HasDefault(t) then old(calls) + [GetExported(id)] else old(calls)
      ensures Extends(heap, supported, id, t, old(calls), calls)
    {
      defaults := [];
      if FO.HasDefaultFields(t, None).value {
        defaults := exporter(id, calls);
        ExtendsOwnCall(heap, supported, id, t, calls, GetExported(id));
        calls := calls + [GetExported(id)];
      }
    }

    /**
     * The `foreach` over the declared properties of `apply`: recursion into
     * each included property, and the exported list accumulated meanwhile.
     */
    method VisitProperties(id: ObjId, t: FO.FieldsOptions, props: seq<string>, hasAll: bool, hasDefault: bool, defaults: seq<string>)
      returns (r: Outcome<Error>, fields: seq<string>)
      requires Valid() && id in heap.objects && props == heap.classes[heap.objects[id].cls]
      modifies this
      decreases Size(M(t.data)), 2
      ensures Valid()
      ensures Extends(heap, supported, id, t, old(calls), calls)
      ensures r.Pass? ==> fields == ExportedFields(t, props, hasAll, hasDefault, defaults)
      ensures Leaf(id, t) ==> applyCache == old(applyCache) && reflectionCache == old(reflectionCache)
    {
      r := Pass;
      fields := [];
      ghost var leaf, applied, reflected := Leaf(id, t), applyCache, reflectionCache;
      var i := 0;
      while i < |props|
        invariant 0 <= i <= |props|
        invariant Valid()
        invariant Extends(heap, supported, id, t, old(calls), calls)
        invariant fields == ExportedFields(t, props[..i], hasAll, hasDefault, defaults)
        invariant leaf ==> applyCache == applied && reflectionCache == reflected
      {
        var field := props[i];
        if FO.IsFieldIncluded(t, field) {
          if leaf {
            LeafNoRecursion(heap, supported, heap.objects[id], t, props, i);
          }
          ghost var before := calls;
          r := ApplyField(id, t, i);
          ExtendsTrans(heap, supported, id, t, old(calls), before, calls);
          if r.Fail? {
            return;
          }
        }
        ExportedFieldsStep(t, props, i, hasAll, hasDefault, defaults);
        fields := fields + Contribution(t, field, hasAll, hasDefault, defaults);
        i := i + 1;
      }
      assert props[..|props|] == props;
    }

    /**
     * The recursion for the included property i of object `id`: the objects
     * its value leads to get the property's sub-tree; reading it fails when
     * it is not initialised.
     */
    method ApplyField(id: ObjId, t: FO.FieldsOptions, i: nat) returns (r: Outcome<Error>)
      requires Valid() && id in heap.objects
      requires i < |heap.classes[heap.objects[id].cls]| && FO.IsFieldIncluded(t, heap.classes[heap.objects[id].cls][i])
      modifies this
      decreases Size(M(t.data)), 1
      ensures Valid()
      ensures Extends(heap, supported, id, t, old(calls), calls)
      ensures heap.classes[heap.objects[id].cls][i] !in heap.objects[id].values ==>
        r == Fail(UninitialisedProperty(id, heap.classes[heap.objects[id].cls][i])) && calls == old(calls)
      ensures Inert(heap, supported, heap.objects[id], heap.classes[heap.objects[id].cls][i]) ==>
        applyCache == old(applyCache) && reflectionCache == old(reflectionCache)
    {
      var o := heap.objects[id];
      var field := heap.classes[o.cls][i];
      if field !in o.values {
        return Fail(UninitialisedProperty(id, field));
      }
      SubSmaller(t, field);
      var rs := Recipients(heap, supported, o.values[field]);
      r := ApplyAll(rs, Sub(t, field), Size(M(t.data)));
      forall k | |old(calls)| <= k < |calls| ensures Reach(heap, supported, id, t, calls[k].target) {
        assert ReachFromAny(heap, supported, rs, Sub(t, field), calls[k].target);
        var j :| 0 <= j < |rs| && Reach(heap, supported, rs[j], Sub(t, field), calls[k].target);
        ReachThroughField(heap, supported, id, t, i, rs, j, calls[k].target);
      }
    }

    /** The `foreach` over the objects `apply` recurses into for one property. */
    method ApplyAll(ids: seq<ObjId>, sub: FO.FieldsOptions, ghost bound: nat) returns (r: Outcome<Error>)
      requires Valid() && Size(M(sub.data)) < bound
      requires forall j :: 0 <= j < |ids| ==> ids[j] in heap.objects
      modifies this
      decreases bound, 0
      ensures Valid()
      ensures ExtendsFromAny(heap, supported, ids, sub, old(calls), calls)
      ensures ids == [] ==> applyCache == old(applyCache) && reflectionCache == old(reflectionCache)
    {
      r := Pass;
      var j := 0;
      while j < |ids|
        invariant 0 <= j <= |ids|
        invariant Valid()
        invariant ExtendsFromAny(heap, supported, ids, sub, old(calls), calls)
        invariant j == 0 ==> applyCache == old(applyCache) && reflectionCache == old(reflectionCache)
      {
        ghost var before := calls;
        r := Apply(ids[j], sub);
        forall k | |old(calls)| <= k < |calls|
          ensures ReachFromAny(heap, supported, ids, sub, calls[k].target)
        {
          if k >= |before| {
            assert Reach(heap, supported, ids[j], sub, calls[k].target);
            assert ReachFromAny(heap, supported, ids, sub, calls[k].target);
          } else {
            assert calls[k] == before[k];
          }
        }
        if r.Fail? {
          return;
        }
        j := j + 1;
      }
    }
  }
}
