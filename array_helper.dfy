/**
 * Dot-path access to nested arrays: `getValue` reads along a path and gives
 * a default as soon as the walk cannot go on; `setValue` writes along a path,
 * turning every missing, null or non-array node on the way into an empty
 * array.
 */
module ArrayHelper {
  import opened Wrappers
  import opened OrderedMap
  import opened Values
  import opened Paths

  /**
   * The walk of `getValue`'s loop. None where the loop returns the default:
   * a segment is not set (absent or null) in the node reached so far, or that
   * node is not an array, so `isset` fails.
   */
  function Find(v: Value, segs: seq<string>): (r: Option<Value>)
    ensures segs != [] && r.Some? ==> r.value != Null
    decreases |segs|
  {
    if segs == [] then Some(v)
    else
      match v
      case M(es) =>
        (match Lookup(es, segs[0])
         case Some(c) => if c == Null then None else Find(c, segs[1..])
         case None => None)
      case _ => None
  }

  /** `ArrayHelper::getValue($array, $key, $default)`. */
  function GetValue(arr: Entries, key: Option<string>, default: Value): (r: Value)
    ensures key.None? ==> r == M(arr)
  {
    if key.None? then M(arr)
    else Find(M(arr), Split(key.value)).GetOr(default)
  }

  /** Walking p and then q is walking p + q. */
  lemma {:induction false} FindConcat(v: Value, p: seq<string>, q: seq<string>)
    ensures Find(v, p + q) == match Find(v, p) case None => None case Some(x) => Find(x, q)
    decreases |p|
  {
    if p == [] {
      assert p + q == q;
    } else {
      assert (p + q)[0] == p[0];
      assert (p + q)[1..] == p[1..] + q;
      if v.M? {
        match Lookup(v.entries, p[0])
        case Some(c) =>
          if c != Null {
            FindConcat(c, p[1..], q);
          }
        case None =>
      }
    }
  }

  /** A value found two segments below p sits in an array under a, itself an array holding it under b. */
  lemma FindTwoBelow(v: Value, p: seq<string>, a: string, b: string, x: Value)
    requires Find(v, p + [a, b]) == Some(x)
    ensures Find(v, p).Some? && Find(v, p).value.M?
    ensures var node := Find(v, p).value;
      Lookup(node.entries, a).Some? && Lookup(node.entries, a).value.M?
      && Lookup(Lookup(node.entries, a).value.entries, b) == Some(x)
  {
    FindConcat(v, p, [a, b]);
    var node := Find(v, p).value;
    assert Find(node, [a, b]) == Some(x);
    assert [a, b][1..] == [b];
    var c := Lookup(node.entries, a).value;
    assert Find(c, [b]) == Some(x);
    assert [b][1..] == [];
    var d := Lookup(c.entries, b).value;
    assert Find(d, []) == Some(d);
  }

  /**
   * `getValue` returns the default once the walk is stuck at segment j: the
   * node reached by the first j segments is not an array, or does not set
   * segment j to a non-null value.
   */
  lemma GetValueStuck(arr: Entries, key: string, default: Value, j: nat, node: Value)
    requires j < |Split(key)|
    requires Find(M(arr), Split(key)[..j]) == Some(node)
    requires !node.M? || Lookup(node.entries, Split(key)[j]).GetOr(Null) == Null
    ensures GetValue(arr, Some(key), default) == default
  {
    var segs := Split(key);
    assert segs == segs[..j] + segs[j..];
    FindConcat(M(arr), segs[..j], segs[j..]);
    assert segs[j..][0] == segs[j];
  }

  /**
   * Reading "p.q" reads p and then q inside it: when p leads to an array,
   * q is read there; when p is missing or leads to a non-array, the default.
   */
  lemma GetValueDotted(arr: Entries, p: string, q: string, default: Value)
    ensures GetValue(arr, Some(p + "." + q), default) ==
      match GetValue(arr, Some(p), Null)
      case M(es) => GetValue(es, Some(q), default)
      case _ => default
  {
    SplitDot(p, q);
    FindConcat(M(arr), Split(p), Split(q));
  }

  /**
   * The write of `setValue` along a path: intermediate nodes that are
   * arrays are kept, all others become empty arrays; the last segment is
   * assigned. Only the first segment's entry of `m` changes, and it keeps its
   * place; a new key goes to the end.
   */
  function SetPath(m: Entries, segs: seq<string>, v: Value): (r: Entries)
    requires |segs| >= 1
    ensures Keys(r) == if segs[0] in Keys(m) then Keys(m) else Keys(m) + [segs[0]]
    ensures forall k :: k != segs[0] ==> Lookup(r, k) == Lookup(m, k)
    decreases |segs|
  {
    if |segs| == 1 then Put(m, segs[0], v)
    else Put(m, segs[0], M(SetPath(ChildArray(m, segs[0]), segs[1..], v)))
  }

  /** The array stored under k, or the empty array that replaces a missing, null or scalar entry. */
  function ChildArray(m: Entries, k: string): Entries {
    var found: Option<Value> := Lookup(m, k);
    if found.Some? && found.value.M? then found.value.entries else []
  }

  /**
   * The array rebuilt from the parents recorded while descending: each
   * parent gets its child written back under the key followed.
   */
  function Plug(frames: seq<(Entries, string)>, inner: Entries): Entries
    decreases |frames|
  {
    if frames == [] then inner
    else
      var f := frames[|frames| - 1];
      Plug(frames[..|frames| - 1], Put(f.0, f.1, M(inner)))
  }

  /**
   * `ArrayHelper::setValue(&$array, $key, $value)`, returning the new value of
   * `$array`. A null key replaces the whole array; otherwise the loop descends
   * through all segments but the last, creating the intermediate arrays, and
   * the last one is assigned.
   */
  method SetValue(arr: Entries, key: Option<string>, value: Value) returns (r: Value)
    ensures key.None? ==> r == value
    ensures key.Some? ==> r == M(SetPath(arr, Split(key.value), value))
  {
    if key.None? {
      return value;
    }
    var keys := Split(key.value);
    var frames: seq<(Entries, string)> := [];
    var cursor := arr;
    var i := 0;
    while i < |keys| - 1
      invariant 0 <= i <= |keys| - 1
      invariant Plug(frames, SetPath(cursor, keys[i..], value)) == SetPath(arr, keys, value)
    {
      var k := keys[i];
      var next := ChildArray(cursor, k);
      DescendStep(frames, cursor, keys[i..], value);
      assert keys[i..][1..] == keys[i + 1..];
      frames := frames + [(cursor, k)];
      cursor := next;
      i := i + 1;
    }
    assert keys[i..] == [keys[i]];
    cursor := Put(cursor, keys[i], value);
    while frames != []
      invariant Plug(frames, cursor) == SetPath(arr, keys, value)
      decreases |frames|
    {
      var f := frames[|frames| - 1];
      cursor := Put(f.0, f.1, M(cursor));
      frames := frames[..|frames| - 1];
    }
    r := M(cursor);
  }

  /** One step of the descent keeps the final result of the write unchanged. */
  lemma DescendStep(frames: seq<(Entries, string)>, cursor: Entries, rest: seq<string>, v: Value)
    requires |rest| >= 2
    ensures Plug(frames + [(cursor, rest[0])], SetPath(ChildArray(cursor, rest[0]), rest[1..], v))
         == Plug(frames, SetPath(cursor, rest, v))
  {
    var fs := frames + [(cursor, rest[0])];
    assert fs[..|fs| - 1] == frames;
  }

  /** After writing a non-null v at a path, reading that path gives v. */
  lemma {:induction false} SetPathRoundTrip(m: Entries, segs: seq<string>, v: Value)
    requires |segs| >= 1
    ensures Find(M(SetPath(m, segs, v)), segs) == if v == Null then None else Some(v)
    decreases |segs|
  {
    if |segs| > 1 {
      SetPathRoundTrip(ChildArray(m, segs[0]), segs[1..], v);
    }
  }

  /** `getValue` reads back what `setValue` wrote, unless it wrote null. */
  lemma SetValueRoundTrip(arr: Entries, key: string, value: Value, default: Value)
    ensures GetValue(SetPath(arr, Split(key), value), Some(key), default) ==
      if value == Null then default else value
  {
    SetPathRoundTrip(arr, Split(key), value);
  }

  /**
   * A path that leaves the written path at segment j reads the same before
   * and after the write: siblings at every level are untouched.
   */
  lemma {:induction false} SetPathFrame(m: Entries, segs: seq<string>, v: Value, p: seq<string>, j: nat)
    requires |segs| >= 1
    requires j < |p| && j < |segs|
    requires p[..j] == segs[..j] && p[j] != segs[j]
    ensures Find(M(SetPath(m, segs, v)), p) == Find(M(m), p)
    decreases j
  {
    if j > 0 {
      assert p[0] == segs[0];
      var child := ChildArray(m, segs[0]);
      assert p[1..][..j - 1] == segs[1..][..j - 1];
      SetPathFrame(child, segs[1..], v, p[1..], j - 1);
    }
  }

  /** Every proper prefix of the written path leads to an array afterwards. */
  lemma {:induction false} SetPathCreates(m: Entries, segs: seq<string>, v: Value, j: nat)
    requires 1 <= j < |segs|
    ensures Find(M(SetPath(m, segs, v)), segs[..j]).Some?
    ensures Find(M(SetPath(m, segs, v)), segs[..j]).value.M?
    decreases j
  {
    var child := ChildArray(m, segs[0]);
    var rest := segs[1..][..j - 1];
    assert segs[..j] == [segs[0]] + rest;
    FindPutHead(m, segs[0], M(SetPath(child, segs[1..], v)), rest);
    if j > 1 {
      SetPathCreates(child, segs[1..], v, j - 1);
    }
  }

  /** Walking [k] + q through an array just assigned x under k walks q through x. */
  lemma FindPutHead(m: Entries, k: string, x: Value, q: seq<string>)
    ensures Find(M(Put(m, k, x)), [k] + q) == if x == Null then None else Find(x, q)
  {
    assert ([k] + q)[0] == k && ([k] + q)[1..] == q;
  }

  /** Writing the same path twice keeps only the second value. */
  lemma {:induction false} SetPathOverwrite(m: Entries, segs: seq<string>, v1: Value, v2: Value)
    requires |segs| >= 1
    ensures SetPath(SetPath(m, segs, v1), segs, v2) == SetPath(m, segs, v2)
    decreases |segs|
  {
    var k := segs[0];
    if |segs| == 1 {
      PutTwice(m, k, v1, v2);
    } else {
      var child := ChildArray(m, k);
      var once := SetPath(m, segs, v1);
      assert ChildArray(once, k) == SetPath(child, segs[1..], v1);
      SetPathOverwrite(child, segs[1..], v1, v2);
      PutTwice(m, k, M(SetPath(child, segs[1..], v1)), M(SetPath(child, segs[1..], v2)));
    }
  }

  /** Writing a well-formed value keeps every array's keys distinct. */
  lemma {:induction false} SetPathWellFormed(m: Entries, segs: seq<string>, v: Value)
    requires |segs| >= 1
    requires WellFormed(M(m)) && WellFormed(v)
    ensures WellFormed(M(SetPath(m, segs, v)))
    decreases |segs|
  {
    var k := segs[0];
    var x := v;
    if |segs| > 1 {
      var child := ChildArray(m, k);
      ChildArrayWellFormed(m, k);
      SetPathWellFormed(child, segs[1..], v);
      x := M(SetPath(child, segs[1..], v));
    }
    var r := Put(m, k, x);
    assert r == SetPath(m, segs, v);
    PutUnique(m, k, x);
    forall i | 0 <= i < |r| ensures WellFormed(r[i].1) {
      PutEntries(m, k, x, i);
    }
  }

  lemma ChildArrayWellFormed(m: Entries, k: string)
    requires WellFormed(M(m))
    ensures WellFormed(M(ChildArray(m, k)))
  {
    var found := Lookup(m, k);
    if found.Some? && found.value.M? {
      var i := LookupIndex(m, k);
    }
  }
}
