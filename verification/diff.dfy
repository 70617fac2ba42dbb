/**
 * The structural diff (diff.rs). `TDiff` walks two values with a
 * `PatchDiffer` whose path, patch and shift it updates in place; `DiffOps`
 * is the same comparison written as a pure function of the two values and
 * the current path, and `TDiff` is proved to append exactly `DiffOps` to
 * the patch and to leave the path as it found it.
 */
module Diff {
  import opened Wrappers
  import opened Paths
  import opened HashableValue
  import SerdeJson

  /** One addressing step: an array position or an object key (`Key::String` in the source). */
  datatype Key = Index(idx: nat) | Name(name: string)

  /** The three operations the generator emits, each carrying a JSON Pointer path. */
  datatype PatchOperation =
    | Add(path: string, value: SerdeJson.Json)
    | Remove(path: string)
    | Replace(path: string, value: SerdeJson.Json)

  predicate IsScalar(v: Value) {
    v.Null? || v.Bool? || v.Number? || v.String?
  }

  /** Distinct keys: what an `IndexMap` built from the items keeps of them. */
  predicate DistinctItemKeys(items: seq<(Key, Value)>) {
    forall i, j :: 0 <= i < j < |items| ==> items[i].0 != items[j].0
  }

  /**
   * `value_items`: no children for a scalar; for an array each element under
   * its position, for an object each value under its key, in order.
   */
  function ValueItems(v: Value): (r: Option<seq<(Key, Value)>>)
    ensures r.None? <==> IsScalar(v)
    ensures v.Array? ==>
      (r.Some? && |r.value| == |v.arr| &&
       forall i :: 0 <= i < |v.arr| ==> r.value[i] == (Index(i), v.arr[i]))
    ensures v.Object? ==>
      (r.Some? && |r.value| == |v.obj| &&
       forall i :: 0 <= i < |v.obj| ==> r.value[i] == (Name(v.obj[i].0), v.obj[i].1))
  {
    match v
    case Array(xs) => Some(seq(|xs|, i requires 0 <= i < |xs| => (Index(i), xs[i])))
    case Object(es) => Some(seq(|es|, i requires 0 <= i < |es| => (Name(es[i].0), es[i].1)))
    case _ => None
  }

  /** The children of a value whose objects have distinct keys have the same property, and distinct keys. */
  lemma ItemsWellFormed(v: Value)
    requires WellFormed(v) && !IsScalar(v)
    ensures DistinctItemKeys(ValueItems(v).value)
    ensures forall i :: 0 <= i < |ValueItems(v).value| ==> WellFormed(ValueItems(v).value[i].1)
  {
  }

  /** `IndexMap::get_index_of`: where `key` sits among the items, if it is there. */
  function Find(items: seq<(Key, Value)>, key: Key): (r: Option<nat>)
    ensures r.Some? ==> r.value < |items| && items[r.value].0 == key
    ensures r.None? <==> forall i :: 0 <= i < |items| ==> items[i].0 != key
  {
    if items == [] then None
    else if items[0].0 == key then Some(0)
    else match Find(items[1..], key)
      case None => None
      case Some(j) => Some(j + 1)
  }

  /**
   * The segment `push` writes for a key: the index less the removals already
   * made at this level (the source's `idx - self.shift`, which must not
   * underflow), or the escaped key.
   */
  function Segment(key: Key, shift: nat): (r: string)
    requires key.Index? ==> shift <= key.idx
    ensures '/' !in r
  {
    match key
    case Index(i) => DecimalString(i - shift)
    case Name(s) => Escape(s)
  }

  /** Index keys never stand before their own position (true of every array's items). */
  predicate IndexKeysAtLeastPosition(items: seq<(Key, Value)>) {
    forall j :: 0 <= j < |items| && items[j].0.Index? ==> j <= items[j].0.idx
  }

  /** The shift after the removal pass has gone through `done`: one per removed index key. */
  function RemovedShift(done: seq<(Key, Value)>, right: seq<(Key, Value)>): (s: nat)
    ensures s <= |done|
  {
    if done == [] then 0
    else
      var k := done[|done| - 1].0;
      RemovedShift(done[..|done| - 1], right) +
        (if k.Index? && Find(right, k).None? then 1 else 0)
  }

  // ---------------------------------------------------------------------
  // The comparison as a function. Each pass is defined on a prefix of the
  // items it iterates, so that a loop over the items can keep "the patch so
  // far is the pass over the prefix" as its invariant.
  // ---------------------------------------------------------------------

  /** The operations comparing `l` with `r` appends when the walk stands at `path`. */
  function DiffOps(l: Value, r: Value, path: string): seq<PatchOperation>
    decreases l, 1
  {
    if Equal(l, r) && IsScalar(l) == IsScalar(r) then []
    else if IsScalar(l) || IsScalar(r) then [Replace(path, IntoSerde(r))]
    else
      var li, ri := ValueItems(l).value, ValueItems(r).value;
      MatchedOps(l, ri, path) + AddedOps(li, ri, path) + RemovedOps(li, ri, path)
  }

  /** First pass: the keys of `right` also in `l`, in the right side's order, each compared in turn. */
  function MatchedOps(l: Value, right: seq<(Key, Value)>, path: string): seq<PatchOperation>
    requires !IsScalar(l)
    decreases l, 0, |right|
  {
    if right == [] then []
    else MatchedOps(l, right[..|right| - 1], path) + MatchedEntry(l, right[|right| - 1], path)
  }

  /** The operations of one right-hand entry in the first pass: its comparison, if `l` has the key. */
  function MatchedEntry(l: Value, entry: (Key, Value), path: string): seq<PatchOperation>
    requires !IsScalar(l)
    decreases l, 0, 0
  {
    var left := ValueItems(l).value;
    match Find(left, entry.0)
    case None => []
    case Some(j) => DiffOps(left[j].1, entry.1, path + "/" + Segment(entry.0, 0))
  }

  lemma MatchedOpsStep(l: Value, right: seq<(Key, Value)>, i: nat, path: string)
    requires !IsScalar(l) && i < |right|
    ensures MatchedOps(l, right[..i + 1], path) == MatchedOps(l, right[..i], path) + MatchedEntry(l, right[i], path)
  {
    assert right[..i + 1][..i] == right[..i];
  }

  /** Second pass: an `Add` for each key only on the right, in the right side's order. */
  function AddedOps(left: seq<(Key, Value)>, right: seq<(Key, Value)>, path: string): seq<PatchOperation>
  {
    if right == [] then []
    else AddedOps(left, right[..|right| - 1], path) + AddedEntry(left, right[|right| - 1], path)
  }

  /** The operation of one right-hand entry in the second pass: an `Add`, if `left` lacks the key. */
  function AddedEntry(left: seq<(Key, Value)>, entry: (Key, Value), path: string): seq<PatchOperation>
  {
    if Find(left, entry.0).None? then [Add(path + "/" + Segment(entry.0, 0), IntoSerde(entry.1))] else []
  }

  /**
   * Third pass: a `Remove` for each key only on the left, in the left side's
   * order, each index lowered by the number of indices removed before it.
   */
  function RemovedOps(left: seq<(Key, Value)>, right: seq<(Key, Value)>, path: string): seq<PatchOperation>
    requires IndexKeysAtLeastPosition(left)
  {
    if left == [] then []
    else
      var done := left[..|left| - 1];
      RemovedOps(done, right, path) + RemovedEntry(left[|left| - 1].0, right, RemovedShift(done, right), path)
  }

  /** The operation of one left-hand key in the third pass: a `Remove` at the shifted position, if `right` lacks the key. */
  function RemovedEntry(key: Key, right: seq<(Key, Value)>, shift: nat, path: string): seq<PatchOperation>
    requires key.Index? ==> shift <= key.idx
  {
    if Find(right, key).None? then [Remove(path + "/" + Segment(key, shift))] else []
  }

  /** Equal values have the same shape: both scalars or both containers. */
  lemma EqualSameShape(l: Value, r: Value)
    requires Equal(l, r)
    ensures IsScalar(l) == IsScalar(r) && l.Array? == r.Array? && l.Object? == r.Object?
  {
  }

  /** Comparing a value with itself emits nothing. */
  lemma IdentityEmitsNothing(x: Value, path: string)
    requires WellFormed(x)
    ensures DiffOps(x, x, path) == []
  {
    EqualReflexive(x);
  }

  // ---------------------------------------------------------------------
  // The diff context and the walk.
  // ---------------------------------------------------------------------

  /** `PatchDiffer`: the current path, the patch so far, and the removals made at this level. */
  class PatchDiffer {
    var path: string
    var patch: seq<PatchOperation>
    var shift: nat

    /** `PatchDiffer::new`: at the root, nothing emitted. */
    constructor ()
      ensures path == "" && patch == [] && shift == 0
    {
      path := "";
      patch := [];
      shift := 0;
    }

    /** Descend into `key`: a separator, then its segment. */
    method Push(key: Key)
      requires key.Index? ==> shift <= key.idx
      modifies this
      ensures path == old(path) + "/" + Segment(key, old(shift))
      ensures patch == old(patch) && shift == old(shift)
    {
      path := path + "/";
      match key {
        case Index(idx) =>
          path := path + DecimalString(idx - shift);
        case Name(name) =>
          path := AppendPath(path, name);
      }
    }

    /** Ascend: cut the path at its last separator and forget the shift. */
    method Pop()
      modifies this
      ensures path == old(path)[..PopPosition(old(path))]
      ensures patch == old(patch) && shift == 0
    {
      var pos := PopPosition(path);
      path := path[..pos];
      shift := 0;
    }

    /** Emit a `Remove` below the current path; an index removal raises the shift. */
    method Removed(key: Key, v: Value)
      requires key.Index? ==> shift <= key.idx
      modifies this
      ensures patch == old(patch) + [Remove(old(path) + "/" + Segment(key, old(shift)))]
      ensures path == old(path)
      ensures shift == old(shift) + if key.Index? then 1 else 0
    {
      var len := |path|;
      Push(key);
      patch := patch + [Remove(path)];
      if key.Index? {
        shift := shift + 1;
      }
      path := path[..len];
    }

    /** Emit an `Add` of `v` below the current path. */
    method Added(key: Key, v: Value)
      requires key.Index? ==> shift <= key.idx
      modifies this
      ensures patch == old(patch) + [Add(old(path) + "/" + Segment(key, old(shift)), IntoSerde(v))]
      ensures path == old(path) && shift == old(shift)
    {
      var len := |path|;
      Push(key);
      patch := patch + [Add(path, IntoSerde(v))];
      path := path[..len];
    }

    /** Emit a `Replace` of the whole value at the current path. */
    method Modified(left: Value, right: Value)
      modifies this
      ensures patch == old(patch) + [Replace(path, IntoSerde(right))]
      ensures path == old(path) && shift == old(shift)
    {
      patch := patch + [Replace(path, IntoSerde(right))];
    }
  }

  /**
   * `tdiff`: compare `l` with `r` below the context's path, appending the
   * operations to its patch. The shift is zero whenever a comparison starts;
   * after two unequal containers it is left at the number of index keys the
   * removal loop dropped, for the caller's `pop` to clear.
   */
  method TDiff(l: Value, r: Value, d: PatchDiffer)
    requires WellFormed(l) && WellFormed(r)
    requires d.shift == 0
    modifies d
    ensures d.path == old(d.path)
    ensures d.patch == old(d.patch) + DiffOps(l, r, old(d.path))
    ensures d.shift == if !Equal(l, r) && !IsScalar(l) && !IsScalar(r)
      then RemovedShift(ValueItems(l).value, ValueItems(r).value) else 0
    decreases l, 2
  {
    var li := ValueItems(l);
    var ri := ValueItems(r);
    var same := Equal(l, r);
    if li.None? && ri.None? && same {
      // two equal scalars: `unchanged`, which does nothing
      assert DiffOps(l, r, d.path) == [];
    } else if li.None? && ri.None? {
      assert DiffOps(l, r, d.path) == [Replace(d.path, IntoSerde(r))];
      d.Modified(l, r);
    } else if li.Some? && ri.Some? && same {
      // two equal containers: `unchanged`
      assert DiffOps(l, r, d.path) == [];
    } else if li.None? || ri.None? {
      assert DiffOps(l, r, d.path) == [Replace(d.path, IntoSerde(r))];
      d.Modified(l, r);
    } else {
      DiffOpsOfContainers(l, r, d.path);
      ghost var start, path := d.patch, d.path;
      DiffContainers(l, r, d);
      var ml, mr := ValueItems(l).value, ValueItems(r).value;
      var matched, added := MatchedOps(l, mr, path), AddedOps(ml, mr, path);
      AppendAssociative(start, matched + added, RemovedOps(ml, mr, path));
      AppendAssociative(start, matched, added);
    }
  }

  /** Two unequal containers: the three loops of `tdiff`, one after the other. */
  method DiffContainers(l: Value, r: Value, d: PatchDiffer)
    requires WellFormed(l) && WellFormed(r) && !IsScalar(l) && !IsScalar(r)
    requires d.shift == 0
    modifies d
    ensures IndexKeysAtLeastPosition(ValueItems(l).value)
    ensures d.path == old(d.path)
    ensures d.patch == old(d.patch) + MatchedOps(l, ValueItems(r).value, old(d.path))
      + AddedOps(ValueItems(l).value, ValueItems(r).value, old(d.path))
      + RemovedOps(ValueItems(l).value, ValueItems(r).value, old(d.path))
    ensures d.shift == RemovedShift(ValueItems(l).value, ValueItems(r).value)
    decreases l, 1
  {
    // Extending an empty IndexMap with items whose keys are distinct keeps them as they are.
    var ml := ValueItems(l).value;
    var mr := ValueItems(r).value;
    ItemsWellFormed(l);
    ItemsWellFormed(r);
    MatchedPass(l, mr, d);
    AddedPass(ml, mr, d);
    RemovedPass(ml, mr, d);
  }

  lemma DiffOpsOfContainers(l: Value, r: Value, path: string)
    requires !IsScalar(l) && !IsScalar(r) && !Equal(l, r)
    ensures IndexKeysAtLeastPosition(ValueItems(l).value)
    ensures DiffOps(l, r, path) ==
      var ml, mr := ValueItems(l).value, ValueItems(r).value;
      MatchedOps(l, mr, path) + AddedOps(ml, mr, path) + RemovedOps(ml, mr, path)
  {
  }

  /** The first loop of `tdiff`: recurse into every key of `mr` that `l` also has. */
  method MatchedPass(l: Value, mr: seq<(Key, Value)>, d: PatchDiffer)
    requires !IsScalar(l)
    requires forall i :: 0 <= i < |ValueItems(l).value| ==> WellFormed(ValueItems(l).value[i].1)
    requires forall i :: 0 <= i < |mr| ==> WellFormed(mr[i].1)
    requires d.shift == 0
    modifies d
    ensures d.path == old(d.path) && d.shift == 0
    ensures d.patch == old(d.patch) + MatchedOps(l, mr, old(d.path))
    decreases l, 0
  {
    var ml := ValueItems(l).value;
    ghost var path := d.path;
    ghost var start := d.patch;
    for i := 0 to |mr|
      invariant d.path == path && d.shift == 0
      invariant d.patch == start + MatchedOps(l, mr[..i], path)
    {
      var k := mr[i].0;
      var found := Find(ml, k);
      ghost var before := d.patch;
      if found.Some? {
        d.Push(k);
        TDiff(ml[found.value].1, mr[i].1, d);
        d.Pop();
        PopAfterPush(path, Segment(k, 0));
      }
      assert d.patch == before + MatchedEntry(l, mr[i], path);
      MatchedOpsStep(l, mr, i, path);
      AppendAssociative(start, MatchedOps(l, mr[..i], path), MatchedEntry(l, mr[i], path));
    }
    assert mr[..|mr|] == mr;
  }

  /** The second loop of `tdiff`: add every key of `mr` that `ml` lacks. */
  method AddedPass(ml: seq<(Key, Value)>, mr: seq<(Key, Value)>, d: PatchDiffer)
    requires d.shift == 0
    modifies d
    ensures d.path == old(d.path) && d.shift == 0
    ensures d.patch == old(d.patch) + AddedOps(ml, mr, old(d.path))
  {
    ghost var path := d.path;
    ghost var start := d.patch;
    for i := 0 to |mr|
      invariant d.path == path && d.shift == 0
      invariant d.patch == start + AddedOps(ml, mr[..i], path)
    {
      var k := mr[i].0;
      if Find(ml, k).None? {
        d.Added(k, mr[i].1);
      }
      assert mr[..i + 1][..i] == mr[..i];
    }
    assert mr[..|mr|] == mr;
  }

  /** The third loop of `tdiff`: remove every key of `ml` that `mr` lacks, counting index removals. */
  method RemovedPass(ml: seq<(Key, Value)>, mr: seq<(Key, Value)>, d: PatchDiffer)
    requires IndexKeysAtLeastPosition(ml)
    requires d.shift == 0
    modifies d
    ensures d.path == old(d.path) && d.shift == RemovedShift(ml, mr)
    ensures d.patch == old(d.patch) + RemovedOps(ml, mr, old(d.path))
  {
    ghost var path := d.path;
    ghost var start := d.patch;
    for i := 0 to |ml|
      invariant d.path == path
      invariant IndexKeysAtLeastPosition(ml[..i])
      invariant d.shift == RemovedShift(ml[..i], mr)
      invariant d.patch == start + RemovedOps(ml[..i], mr, path)
    {
      var k := ml[i].0;
      assert ml[..i + 1][..i] == ml[..i];
      if Find(mr, k).None? {
        d.Removed(k, ml[i].1);
      }
    }
    assert ml[..|ml|] == ml;
  }

  /** `diff`: convert both documents, walk them from the root, return the patch. */
  method Diff(left: SerdeJson.Json, right: SerdeJson.Json) returns (patch: seq<PatchOperation>)
    requires SerdeJson.WellFormed(left) && SerdeJson.WellFormed(right)
    ensures patch == DiffOps(FromSerde(left), FromSerde(right), "")
    ensures left == right ==> patch == []
  {
    var l := FromSerde(left);
    var r := FromSerde(right);
    var differ := new PatchDiffer();
    TDiff(l, r, differ);
    patch := differ.patch;
    if left == right {
      IdentityEmitsNothing(l, "");
    }
  }
}
