/**
 * `Validator`: checks the shape of a selection tree and, when a prototype
 * is bound, that every field path could address something in it. An array
 * prototype proves a path by example; an object prototype is walked through
 * the declared types of its classes, assuming a path valid wherever the type
 * information runs out.
 */
module Validator {
  import opened Wrappers
  import opened OrderedMap
  import opened Values
  import opened Paths
  import ArrayHelper
  import FieldsOptions

  type ClassName = string

  /** An object: its class and the values of its initialised properties. */
  datatype Object = Object(cls: ClassName, initialised: map<string, PropValue>)

  /** A property value as the walk tells it apart. */
  datatype PropValue =
    | Obj(o: Object)
    | Arr(items: seq<PropValue>)
    | ScalarOrNull

  /** A declared property: its declared type names an existing class, or it does not. */
  datatype Decl = ClassTyped(name: ClassName) | NotClassTyped

  /**
   * What reflection knows of a class: its properties (inherited and
   * non-public ones included) and the properties initialised on an instance
   * made without its constructor, with their default values.
   */
  datatype ClassInfo = ClassInfo(decls: map<string, Decl>, defaults: map<string, PropValue>)

  type ClassTable = map<ClassName, ClassInfo>

  /**
   * The bound prototype. A falsy one (null, false, "", "0", the empty array)
   * makes `validateField` do nothing, so all of them are NoPrototype here.
   */
  datatype Prototype = NoPrototype | ArrayShape(entries: Entries) | ObjectGraph(root: Object)

  datatype Validator = Validator(prototype: Prototype, classes: ClassTable)

  /** What a caller may pass as `$prototype`. */
  datatype PrototypeInput = PlainValue(v: Value) | ObjectValue(o: Object)

  /** The `\RuntimeException`s, by message. */
  datatype Error =
    | PrototypeNotArrayOrObject      // "$prototype must be either an array or an object"
    | GroupNotBool(key: string)      // "<key> does not support options"
    | InvalidFieldOptions(keyPath: Option<string>)  // "Invalid field options <keyPath>"
    | InvalidFieldPath(path: string) // "Invalid field path '<path>'"

  /** `new Validator($prototype)`: a truthy prototype must be an array or an object. */
  function New(input: PrototypeInput, classes: ClassTable): (r: Result<Validator, Error>)
    ensures r.Err? <==> input.PlainValue? && Truthy(input.v) && !input.v.M?
    ensures r.Ok? && input.ObjectValue? ==> r.value.prototype == ObjectGraph(input.o)
    ensures r.Ok? && input.PlainValue? ==>
      r.value.prototype == if Truthy(input.v) then ArrayShape(input.v.entries) else NoPrototype
  {
    match input
    case ObjectValue(o) => Ok(Validator(ObjectGraph(o), classes))
    case PlainValue(v) =>
      if !Truthy(v) then Ok(Validator(NoPrototype, classes))
      else if v.M? then Ok(Validator(ArrayShape(v.entries), classes))
      else Err(PrototypeNotArrayOrObject)
  }

  /** A group marker key: it starts with "_" and is not "_opt". */
  predicate IsGroupKey(key: string) {
    key != FieldsOptions.OPTIONS_KEY && |key| > 0 && key[0] == '_'
  }

  /**
   * The loop of `objectPathExists`, one path component per step, from the
   * current object (its class is the reflection the loop holds).
   */
  function Walk(classes: ClassTable, cursor: Object, path: seq<string>): bool
    decreases |path|
  {
    if path == [] then true
    else
      var p := path[0];
      if cursor.cls !in classes || p !in classes[cursor.cls].decls then false
      else
        match classes[cursor.cls].decls[p]
        case ClassTyped(c) =>
          // descend into a fresh instance of the declared class
          var blank := if c in classes then classes[c].defaults else map[];
          Walk(classes, Object(c, blank), path[1..])
        case NotClassTyped =>
          if p !in cursor.initialised then true
          else
            match cursor.initialised[p]
            case Obj(o) => Walk(classes, o, path[1..])
            case Arr(items) =>
              if |items| > 0 && items[0].Obj? then Walk(classes, items[0].o, path[1..]) else true
            case ScalarOrNull => Walk(classes, cursor, path[1..])
  }

  /** `objectPathExists($object, $path)`. */
  function ObjectPathExists(classes: ClassTable, root: Object, path: string): bool {
    Walk(classes, root, Split(path))
  }

  /** `validateField($fieldPath)`. */
  function ValidateField(v: Validator, path: Option<string>): Outcome<Error> {
    if v.prototype.NoPrototype? || !FieldsOptions.Given(path) then Pass
    else
      match v.prototype
      case ArrayShape(es) =>
        if ArrayHelper.GetValue(es, path, B(false)) == B(false) then Fail(InvalidFieldPath(path.value)) else Pass
      case ObjectGraph(o) =>
        if !ObjectPathExists(v.classes, o, path.value) then Fail(InvalidFieldPath(path.value)) else Pass
  }

  /** `validateData($data, $keyPath)`: the first error in key order, depth first. */
  function ValidateData(v: Validator, data: Entries, keyPath: Option<string>): Outcome<Error>
    decreases M(data), 1
  {
    ValidateFrom(v, data, 0, keyPath)
  }

  /** The `foreach` of `validateData`, from the i-th pair on. */
  function ValidateFrom(v: Validator, data: Entries, i: nat, keyPath: Option<string>): Outcome<Error>
    requires i <= |data|
    decreases M(data), 0, |data| - i
  {
    if i == |data| then Pass
    else
      var key := data[i].0;
      var datum := data[i].1;
      if key == FieldsOptions.OPTIONS_KEY then ValidateFrom(v, data, i + 1, keyPath)
      else if IsGroupKey(key) then
        if datum.B? then ValidateFrom(v, data, i + 1, keyPath) else Fail(GroupNotBool(key))
      else
        var fieldPath := FieldsOptions.ChildPath(keyPath, key);
        match ValidateField(v, Some(fieldPath))
        case Fail(e) => Fail(e)
        case Pass =>
          if datum.M? then
            match ValidateData(v, datum.entries, Some(fieldPath))
            case Fail(e) => Fail(e)
            case Pass => ValidateFrom(v, data, i + 1, keyPath)
          else if !datum.B? then Fail(InvalidFieldOptions(keyPath))
          else ValidateFrom(v, data, i + 1, keyPath)
  }

  // ------------------------------------------------- reference definitions

  /**
   * A tree the validator accepts: "_opt" holds anything; a group marker holds
   * a bool; a field's path is valid and it holds a bool or such a tree.
   */
  ghost predicate Accepted(v: Validator, data: Entries, keyPath: Option<string>)
    decreases M(data), 0
  {
    forall i :: 0 <= i < |data| ==> EntryAccepted(v, data[i].0, data[i].1, keyPath)
  }

  /** One pair of such a tree, under the path of the array holding it. */
  ghost predicate EntryAccepted(v: Validator, key: string, datum: Value, keyPath: Option<string>)
    decreases datum, 1
  {
    var fieldPath := FieldsOptions.ChildPath(keyPath, key);
    key == FieldsOptions.OPTIONS_KEY
    || (IsGroupKey(key) && datum.B?)
    || (!IsGroupKey(key)
        && ValidateField(v, Some(fieldPath)).Pass?
        && (datum.B? || (datum.M? && Accepted(v, datum.entries, Some(fieldPath)))))
  }

  /** The structural invariant of a selection tree alone, with no prototype involved. */
  ghost predicate WellShaped(data: Entries)
    decreases M(data)
  {
    forall i :: 0 <= i < |data| ==>
      var key := data[i].0;
      key == FieldsOptions.OPTIONS_KEY
      || (IsGroupKey(key) && data[i].1.B?)
      || (!IsGroupKey(key) && (data[i].1.B? || (data[i].1.M? && WellShaped(data[i].1.entries))))
  }

  // ---------------------------------------------------------------- lemmas

  /** `validateData` passes exactly on the trees that Accepted describes. */
  lemma ValidateDataIff(v: Validator, data: Entries, keyPath: Option<string>)
    ensures ValidateData(v, data, keyPath).Pass? <==> Accepted(v, data, keyPath)
    decreases M(data), 1
  {
    ValidateFromIff(v, data, 0, keyPath);
    assert data[0..] == data;
  }

  lemma {:induction false} ValidateFromIff(v: Validator, data: Entries, i: nat, keyPath: Option<string>)
    requires i <= |data|
    ensures ValidateFrom(v, data, i, keyPath).Pass? <==> Accepted(v, data[i..], keyPath)
    decreases M(data), 0, |data| - i
  {
    if i < |data| {
      ValidateFromIff(v, data, i + 1, keyPath);
      if data[i].1.M? {
        ValidateDataIff(v, data[i].1.entries, Some(FieldsOptions.ChildPath(keyPath, data[i].0)));
      }
      assert data[i..][0] == data[i];
      assert data[i..][1..] == data[i + 1..];
    }
  }

  /** Without a prototype, `validateData` checks the structural invariant and nothing else. */
  lemma NoPrototypeChecksShapeOnly(classes: ClassTable, data: Entries, keyPath: Option<string>)
    ensures ValidateData(Validator(NoPrototype, classes), data, keyPath).Pass? <==> WellShaped(data)
  {
    ValidateDataIff(Validator(NoPrototype, classes), data, keyPath);
    AcceptedIsWellShaped(classes, data, keyPath);
  }

  lemma {:induction false} AcceptedIsWellShaped(classes: ClassTable, data: Entries, keyPath: Option<string>)
    ensures Accepted(Validator(NoPrototype, classes), data, keyPath) <==> WellShaped(data)
    decreases M(data)
  {
    forall i | 0 <= i < |data| && data[i].1.M? {
      AcceptedIsWellShaped(classes, data[i].1.entries, Some(FieldsOptions.ChildPath(keyPath, data[i].0)));
    }
  }

  /** The value stored under "_opt" is never looked at. */
  lemma OptionsNotInspected(v: Validator, data: Entries, keyPath: Option<string>, i: nat, payload: Value)
    requires i < |data| && data[i].0 == FieldsOptions.OPTIONS_KEY
    ensures ValidateData(v, data[i := (FieldsOptions.OPTIONS_KEY, payload)], keyPath) == ValidateData(v, data, keyPath)
  {
    OptionsNotInspectedFrom(v, data, keyPath, i, payload, 0);
  }

  lemma {:induction false} OptionsNotInspectedFrom(v: Validator, data: Entries, keyPath: Option<string>, i: nat, payload: Value, j: nat)
    requires i < |data| && data[i].0 == FieldsOptions.OPTIONS_KEY && j <= |data|
    ensures ValidateFrom(v, data[i := (FieldsOptions.OPTIONS_KEY, payload)], j, keyPath) == ValidateFrom(v, data, j, keyPath)
    decreases |data| - j
  {
    if j < |data| {
      OptionsNotInspectedFrom(v, data, keyPath, i, payload, j + 1);
    }
  }

  /**
   * With an array prototype, a given path is valid exactly when every
   * segment is set in the prototype and the value reached is not false:
   * leaves holding null or false count as missing.
   */
  lemma ArrayPrototypeIff(v: Validator, path: string)
    requires v.prototype.ArrayShape? && TruthyString(path)
    ensures ValidateField(v, Some(path)).Pass? <==>
      var found := ArrayHelper.Find(M(v.prototype.entries), Split(path));
      found.Some? && found.value != B(false)
  {
  }

  /** Valid paths are closed under prefixes in the object walk. */
  lemma {:induction false} WalkPrefix(classes: ClassTable, cursor: Object, p: seq<string>, q: seq<string>)
    requires Walk(classes, cursor, p + q)
    ensures Walk(classes, cursor, p)
    decreases |p|
  {
    if p != [] {
      assert (p + q)[0] == p[0];
      assert (p + q)[1..] == p[1..] + q;
      var c := cursor.cls;
      var d := classes[c].decls[p[0]];
      match d
      case ClassTyped(n) =>
        var blank := if n in classes then classes[n].defaults else map[];
        WalkPrefix(classes, Object(n, blank), p[1..], q);
      case NotClassTyped =>
        if p[0] in cursor.initialised {
          match cursor.initialised[p[0]]
          case Obj(o) => WalkPrefix(classes, o, p[1..], q);
          case Arr(items) =>
            if |items| > 0 && items[0].Obj? {
              WalkPrefix(classes, items[0].o, p[1..], q);
            }
          case ScalarOrNull => WalkPrefix(classes, cursor, p[1..], q);
        }
    }
  }

  /** If "p.q" is a valid field path then so is "p", for either kind of prototype. */
  lemma ValidateFieldPrefix(v: Validator, p: string, q: string)
    requires TruthyString(p)
    requires ValidateField(v, Some(p + "." + q)).Pass?
    ensures ValidateField(v, Some(p)).Pass?
  {
    SplitDot(p, q);
    match v.prototype
    case NoPrototype =>
    case ArrayShape(es) =>
      ArrayHelper.FindConcat(M(es), Split(p), Split(q));
    case ObjectGraph(o) =>
      WalkPrefix(v.classes, o, Split(p), Split(q));
  }
}
