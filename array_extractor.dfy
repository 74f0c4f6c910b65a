/**
 * `ArrayExtractor::getValue`, the dot-path reader that the selection tree
 * uses. Its text is the same as `ArrayHelper::getValue`; it is modelled here
 * as written, by its own walk, and shown to agree with the other.
 */
module ArrayExtractor {
  import opened Wrappers
  import opened OrderedMap
  import opened Values
  import opened Paths
  import ArrayHelper

  /**
   * The loop: the cursor moves down one segment at a time, and the default
   * is returned the moment the cursor is not an array or the segment is not
   * set (absent or null) in it.
   */
  function Descend(cursor: Value, segs: seq<string>, default: Value): Value
    decreases |segs|
  {
    if segs == [] then cursor
    else if cursor.M? then
      var found := Lookup(cursor.entries, segs[0]);
      if found.Some? && found.value != Null then Descend(found.value, segs[1..], default)
      else default
    else default
  }

  /** `ArrayExtractor::getValue($array, $key, $default)`. */
  function GetValue(arr: Entries, key: Option<string>, default: Value): (r: Value)
    ensures key.None? ==> r == M(arr)
  {
    if key.None? then M(arr) else Descend(M(arr), Split(key.value), default)
  }

  lemma {:induction false} DescendIsFind(cursor: Value, segs: seq<string>, default: Value)
    ensures Descend(cursor, segs, default) == ArrayHelper.Find(cursor, segs).GetOr(default)
    decreases |segs|
  {
    if segs != [] && cursor.M? {
      var found := Lookup(cursor.entries, segs[0]);
      if found.Some? && found.value != Null {
        DescendIsFind(found.value, segs[1..], default);
      }
    }
  }

  /** The two readers give the same result on every input. */
  lemma SameAsArrayHelper(arr: Entries, key: Option<string>, default: Value)
    ensures GetValue(arr, key, default) == ArrayHelper.GetValue(arr, key, default)
  {
    if key.Some? {
      DescendIsFind(M(arr), Split(key.value), default);
    }
  }

  /**
   * With a path, the result is the default or a value found in the tree,
   * never null: null entries count as missing.
   */
  lemma ResultNeverNullUnlessDefault(arr: Entries, key: string, default: Value)
    ensures GetValue(arr, Some(key), default) == default || GetValue(arr, Some(key), default) != Null
  {
    SameAsArrayHelper(arr, Some(key), default);
  }
}
