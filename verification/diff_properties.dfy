/**
 * What the comparison promises, stated about `DiffOps` (which `TDiff`
 * is proved to emit): where operations land, when a whole value is
 * replaced, and the exact scripts for arrays that shrink or grow and for
 * an array compared with an object.
 */
module DiffProperties {
  import opened Wrappers
  import opened Paths
  import opened HashableValue
  import opened Diff

  // ---------------------------------------------------------------------
  // Every operation lands at or below the path the comparison started at.
  // ---------------------------------------------------------------------

  /** `q` addresses a location strictly inside the one `p` addresses. */
  predicate StrictlyBelow(p: string, q: string) {
    |q| > |p| && q[..|p|] == p && q[|p|] == '/'
  }

  predicate AllAtOrBelow(p: string, ops: seq<PatchOperation>) {
    forall i :: 0 <= i < |ops| ==> ops[i].path == p || StrictlyBelow(p, ops[i].path)
  }

  predicate AllStrictlyBelow(p: string, ops: seq<PatchOperation>) {
    forall i :: 0 <= i < |ops| ==> StrictlyBelow(p, ops[i].path)
  }

  lemma BelowChild(p: string, segment: string, ops: seq<PatchOperation>)
    requires AllAtOrBelow(p + "/" + segment, ops)
    ensures AllStrictlyBelow(p, ops)
  {
    forall i | 0 <= i < |ops| ensures StrictlyBelow(p, ops[i].path) {
      var q := ops[i].path;
      var c := p + "/" + segment;
      assert q == c || StrictlyBelow(c, q);
      assert q[..|c|] == c;
      assert q[..|c|][..|p|] == q[..|p|];
    }
  }

  lemma StrictlyBelowAppend(p: string, a: seq<PatchOperation>, b: seq<PatchOperation>)
    requires AllStrictlyBelow(p, a) && AllStrictlyBelow(p, b)
    ensures AllStrictlyBelow(p, a + b)
  {
    forall i | 0 <= i < |a + b| ensures StrictlyBelow(p, (a + b)[i].path) {
      if i >= |a| {
        assert (a + b)[i] == b[i - |a|];
      }
    }
  }

  /**
   * The comparison of two values at `path` emits operations at `path` or
   * below it, and strictly below it when both values are containers.
   */
  lemma {:induction false} DiffOpsStayBelow(l: Value, r: Value, path: string)
    ensures AllAtOrBelow(path, DiffOps(l, r, path))
    ensures !IsScalar(l) && !IsScalar(r) ==> AllStrictlyBelow(path, DiffOps(l, r, path))
    decreases l, 1
  {
    if !(Equal(l, r) && IsScalar(l) == IsScalar(r)) && !IsScalar(l) && !IsScalar(r) {
      var ml, mr := ValueItems(l).value, ValueItems(r).value;
      MatchedOpsStayBelow(l, mr, path);
      AddedOpsStayBelow(ml, mr, path);
      RemovedOpsStayBelow(ml, mr, path);
      StrictlyBelowAppend(path, MatchedOps(l, mr, path), AddedOps(ml, mr, path));
      StrictlyBelowAppend(path, MatchedOps(l, mr, path) + AddedOps(ml, mr, path), RemovedOps(ml, mr, path));
    }
  }

  lemma {:induction false} MatchedOpsStayBelow(l: Value, right: seq<(Key, Value)>, path: string)
    requires !IsScalar(l)
    ensures AllStrictlyBelow(path, MatchedOps(l, right, path))
    decreases l, 0, |right|
  {
    if right != [] {
      var init, last := right[..|right| - 1], right[|right| - 1];
      MatchedOpsStayBelow(l, init, path);
      var left := ValueItems(l).value;
      match Find(left, last.0) {
        case None =>
        case Some(j) =>
          var segment := Segment(last.0, 0);
          DiffOpsStayBelow(left[j].1, last.1, path + "/" + segment);
          BelowChild(path, segment, MatchedEntry(l, last, path));
      }
      StrictlyBelowAppend(path, MatchedOps(l, init, path), MatchedEntry(l, last, path));
    }
  }

  lemma {:induction false} AddedOpsStayBelow(left: seq<(Key, Value)>, right: seq<(Key, Value)>, path: string)
    ensures AllStrictlyBelow(path, AddedOps(left, right, path))
  {
    if right != [] {
      var init, last := right[..|right| - 1], right[|right| - 1];
      AddedOpsStayBelow(left, init, path);
      var step := if Find(left, last.0).None? then [Add(path + "/" + Segment(last.0, 0), IntoSerde(last.1))] else [];
      assert AllStrictlyBelow(path, step) by {
        if step != [] { BelowChild(path, Segment(last.0, 0), step); }
      }
      StrictlyBelowAppend(path, AddedOps(left, init, path), step);
    }
  }

  lemma {:induction false} RemovedOpsStayBelow(left: seq<(Key, Value)>, right: seq<(Key, Value)>, path: string)
    requires IndexKeysAtLeastPosition(left)
    ensures AllStrictlyBelow(path, RemovedOps(left, right, path))
  {
    if left != [] {
      var init, k := left[..|left| - 1], left[|left| - 1].0;
      assert IndexKeysAtLeastPosition(init);
      RemovedOpsStayBelow(init, right, path);
      var shift := RemovedShift(init, right);
      var step := if Find(right, k).None? then [Remove(path + "/" + Segment(k, shift))] else [];
      assert AllStrictlyBelow(path, step) by {
        if step != [] { BelowChild(path, Segment(k, shift), step); }
      }
      StrictlyBelowAppend(path, RemovedOps(init, right, path), step);
    }
  }

  /**
   * The value at `path` is replaced, by exactly one operation carrying the
   * right-hand value, precisely when the two values differ and at least one
   * of them is a scalar.
   */
  lemma WholeReplace(l: Value, r: Value, path: string)
    ensures DiffOps(l, r, path) == [Replace(path, IntoSerde(r))] <==>
      !Equal(l, r) && (IsScalar(l) || IsScalar(r))
  {
    if Equal(l, r) {
      EqualSameShape(l, r);
    } else if !IsScalar(l) && !IsScalar(r) {
      DiffOpsStayBelow(l, r, path);
      var ops := DiffOps(l, r, path);
      if |ops| > 0 {
        assert StrictlyBelow(path, ops[0].path);
        assert ops[0].path != path;
      }
    }
  }

  // ---------------------------------------------------------------------
  // Arrays are compared position by position; a longer side ends in adds
  // or removes at the first position the other side lacks.
  // ---------------------------------------------------------------------

  /** Items keyed by their own position, as `value_items` lists an array's. */
  predicate PositionKeyed(items: seq<(Key, Value)>) {
    forall j :: 0 <= j < |items| ==> items[j].0 == Index(j)
  }

  /** Looking a position up among an array's items finds it exactly when the array is that long. */
  lemma FindPosition(xs: seq<Value>, i: nat)
    ensures Find(ValueItems(Array(xs)).value, Index(i)) == if i < |xs| then Some(i) else None
  {
    var items := ValueItems(Array(xs)).value;
    if i < |xs| {
      assert items[i].0 == Index(i);
    }
  }

  /** No object key names an array position, and no position is an object key. */
  lemma FindAcrossKinds(xs: seq<Value>, es: seq<(string, Value)>, i: nat, key: string)
    ensures Find(ValueItems(Object(es)).value, Index(i)).None?
    ensures Find(ValueItems(Array(xs)).value, Name(key)).None?
  {
  }

  /**
   * The removal pass over an array's items whose first `n` positions the
   * right side has and whose later ones it lacks: every removal lands on
   * position `n`, because each one shifts the rest down.
   */
  lemma {:induction false} RemovedOpsFrom(left: seq<(Key, Value)>, right: seq<(Key, Value)>, path: string, n: nat)
    requires PositionKeyed(left) && n <= |left|
    requires forall j :: 0 <= j < n ==> Find(right, Index(j)).Some?
    requires forall j :: n <= j < |left| ==> Find(right, Index(j)).None?
    ensures RemovedShift(left, right) == |left| - n
    ensures RemovedOps(left, right, path) == seq(|left| - n, _ => Remove(path + "/" + DecimalString(n)))
  {
    RemovedShiftFrom(left, right, n);
    if left != [] {
      var init, last := left[..|left| - 1], left[|left| - 1];
      assert last.0 == Index(|left| - 1);
      if |left| == n {
        RemovedOpsFrom(init, right, path, n - 1);
        assert Find(right, last.0).Some?;
        assert RemovedOps(left, right, path) == RemovedOps(init, right, path) + [];
      } else {
        RemovedOpsFrom(init, right, path, n);
        assert Find(right, last.0).None?;
        RemovedOpsOneMore(left, right, path, n);
      }
    }
  }

  /** One more position the right side lacks adds one more removal at position `n`. */
  lemma RemovedOpsOneMore(left: seq<(Key, Value)>, right: seq<(Key, Value)>, path: string, n: nat)
    requires PositionKeyed(left) && n < |left|
    requires Find(right, Index(|left| - 1)).None?
    requires RemovedShift(left[..|left| - 1], right) == |left| - 1 - n
    requires RemovedOps(left[..|left| - 1], right, path) == seq(|left| - 1 - n, _ => Remove(path + "/" + DecimalString(n)))
    ensures RemovedOps(left, right, path) == seq(|left| - n, _ => Remove(path + "/" + DecimalString(n)))
  {
    var init := left[..|left| - 1];
    var removed := Remove(path + "/" + DecimalString(n));
    assert left[|left| - 1].0 == Index(|left| - 1);
    assert RemovedEntry(left[|left| - 1].0, right, RemovedShift(init, right), path) == [removed];
    RepeatedOneMore(removed, |init| - n);
  }

  /** A run of one repeated element, one element longer. */
  lemma RepeatedOneMore<T>(x: T, k: nat)
    ensures seq(k, _ => x) + [x] == seq(k + 1, _ => x)
  {
  }

  /** The shift half of `RemovedOpsFrom`: one per position the right side lacks. */
  lemma {:induction false} RemovedShiftFrom(left: seq<(Key, Value)>, right: seq<(Key, Value)>, n: nat)
    requires PositionKeyed(left) && n <= |left|
    requires forall j :: 0 <= j < n ==> Find(right, Index(j)).Some?
    requires forall j :: n <= j < |left| ==> Find(right, Index(j)).None?
    ensures RemovedShift(left, right) == |left| - n
  {
    if left != [] {
      var init := left[..|left| - 1];
      assert left[|left| - 1].0 == Index(|left| - 1);
      if |left| == n {
        RemovedShiftFrom(init, right, n - 1);
        assert Find(right, Index(n - 1)).Some?;
      } else {
        RemovedShiftFrom(init, right, n);
        assert Find(right, Index(|left| - 1)).None?;
      }
    }
  }

  /** The addition pass over an array's items whose first `n` positions the left side has. */
  lemma {:induction false} AddedOpsFrom(left: seq<(Key, Value)>, right: seq<(Key, Value)>, path: string, n: nat)
    requires PositionKeyed(right) && n <= |right|
    requires forall j :: 0 <= j < n ==> Find(left, Index(j)).Some?
    requires forall j :: n <= j < |right| ==> Find(left, Index(j)).None?
    ensures |AddedOps(left, right, path)| == |right| - n
    ensures forall i :: 0 <= i < |right| - n ==>
      AddedOps(left, right, path)[i] == Add(path + "/" + DecimalString(n + i), IntoSerde(right[n + i].1))
  {
    if right != [] {
      var init, last := right[..|right| - 1], right[|right| - 1];
      assert AddedOps(left, right, path) == AddedOps(left, init, path) + AddedEntry(left, last, path);
      if |right| == n {
        AddedOpsFrom(left, init, path, n - 1);
        assert Find(left, last.0).Some?;
        assert AddedOps(left, right, path) == AddedOps(left, init, path);
      } else {
        AddedOpsFrom(left, init, path, n);
        assert last.0 == Index(|right| - 1);
        assert Find(left, last.0).None?;
        var added := Add(path + "/" + DecimalString(|right| - 1), IntoSerde(last.1));
        assert AddedEntry(left, last, path) == [added];
        forall i | 0 <= i < |right| - n
          ensures AddedOps(left, right, path)[i] == Add(path + "/" + DecimalString(n + i), IntoSerde(right[n + i].1))
        {
          var ops, before := AddedOps(left, right, path), AddedOps(left, init, path);
          if i < |init| - n {
            assert ops[i] == before[i];
            assert before[i] == Add(path + "/" + DecimalString(n + i), IntoSerde(init[n + i].1));
            assert right[n + i] == init[n + i];
          } else {
            assert n + i == |right| - 1 && right[n + i] == last;
            AppendedLast(before, added);
            assert ops[i] == added;
          }
        }
      }
    }
  }

  /** Element `i` of one array compared with element `i` of the other, for the first `n` positions. */
  function PositionwiseOps(xs: seq<Value>, ys: seq<Value>, path: string, n: nat): seq<PatchOperation>
    requires n <= |xs| && n <= |ys|
  {
    if n == 0 then []
    else PositionwiseOps(xs, ys, path, n - 1) + DiffOps(xs[n - 1], ys[n - 1], path + "/" + DecimalString(n - 1))
  }

  /** The first pass over two arrays compares the positions both have, in order. */
  lemma {:induction false} MatchedOpsOfArrays(xs: seq<Value>, ys: seq<Value>, path: string, n: nat)
    requires n <= |ys|
    ensures MatchedOps(Array(xs), ValueItems(Array(ys)).value[..n], path) == PositionwiseOps(xs, ys, path, Min(n, |xs|))
  {
    var right := ValueItems(Array(ys)).value;
    if n > 0 {
      MatchedOpsOfArrays(xs, ys, path, n - 1);
      MatchedOpsStep(Array(xs), right, n - 1, path);
      PositionEntry(xs, ys, path, n - 1);
      var before := MatchedOps(Array(xs), right[..n - 1], path);
      var entry := MatchedEntry(Array(xs), right[n - 1], path);
      assert MatchedOps(Array(xs), right[..n], path) == before + entry;
      if n <= |xs| {
        assert Min(n - 1, |xs|) == n - 1 && Min(n, |xs|) == n;
        assert before == PositionwiseOps(xs, ys, path, n - 1);
        assert entry == DiffOps(xs[n - 1], ys[n - 1], path + "/" + DecimalString(n - 1));
      } else {
        assert Min(n - 1, |xs|) == |xs|;
        assert entry == [];
        assert before + entry == before;
      }
    } else {
      assert right[..0] == [];
    }
  }

  function Min(a: nat, b: nat): nat {
    if a <= b then a else b
  }

  /** The first pass compares element `i` with element `i` while both arrays have one, and nothing after. */
  lemma PositionEntry(xs: seq<Value>, ys: seq<Value>, path: string, i: nat)
    requires i < |ys|
    ensures MatchedEntry(Array(xs), ValueItems(Array(ys)).value[i], path)
         == if i < |xs| then DiffOps(xs[i], ys[i], path + "/" + DecimalString(i)) else []
  {
    var entry := ValueItems(Array(ys)).value[i];
    assert entry == (Index(i), ys[i]);
    FindPosition(xs, i);
    if i < |xs| {
      assert ValueItems(Array(xs)).value[i].1 == xs[i];
    }
  }


  /** The adds that extend an array to a longer one: each extra element, at its own position. */
  function TailAdds(xs: seq<Value>, ys: seq<Value>, path: string): seq<PatchOperation> {
    if |ys| <= |xs| then [] else
      seq(|ys| - |xs|, i requires 0 <= i < |ys| - |xs| =>
        Add(path + "/" + DecimalString(|xs| + i), IntoSerde(ys[|xs| + i])))
  }

  /** The removes that cut an array down to a shorter one: all at the shorter length. */
  function TailRemoves(xs: seq<Value>, ys: seq<Value>, path: string): seq<PatchOperation> {
    if |xs| <= |ys| then [] else
      seq(|xs| - |ys|, _ => Remove(path + "/" + DecimalString(|ys|)))
  }

  lemma SameElements<T>(a: seq<T>, b: seq<T>)
    requires |a| == |b| && forall i :: 0 <= i < |a| ==> a[i] == b[i]
    ensures a == b
  {
  }

  lemma AppendedLast<T>(a: seq<T>, x: T)
    ensures |a + [x]| == |a| + 1 && (a + [x])[|a|] == x
  {
  }

  lemma ArrayKeysFound(xs: seq<Value>, ys: seq<Value>)
    ensures forall j :: 0 <= j < |ys| ==>
      Find(ValueItems(Array(xs)).value, Index(j)) == if j < |xs| then Some(j) else None
  {
    forall j | 0 <= j < |ys| ensures Find(ValueItems(Array(xs)).value, Index(j)) == if j < |xs| then Some(j) else None {
      FindPosition(xs, j);
    }
  }

  lemma AddedTailElement(xs: seq<Value>, ys: seq<Value>, path: string, i: nat)
    requires |xs| < |ys| && i < |ys| - |xs|
    ensures |AddedOps(ValueItems(Array(xs)).value, ValueItems(Array(ys)).value, path)| == |ys| - |xs|
    ensures AddedOps(ValueItems(Array(xs)).value, ValueItems(Array(ys)).value, path)[i] == TailAdds(xs, ys, path)[i]
  {
    AddedOpsAt(xs, ys, path, i);
    TailAddsAt(xs, ys, path, i);
  }

  /** The addition pass from a shorter array to a longer one adds the elements past the shorter length. */
  lemma ArrayAddedFrom(xs: seq<Value>, ys: seq<Value>, path: string)
    requires |xs| <= |ys|
    ensures |AddedOps(ValueItems(Array(xs)).value, ValueItems(Array(ys)).value, path)| == |ys| - |xs|
    ensures forall i :: 0 <= i < |ys| - |xs| ==>
      AddedOps(ValueItems(Array(xs)).value, ValueItems(Array(ys)).value, path)[i] ==
      Add(path + "/" + DecimalString(|xs| + i), IntoSerde(ValueItems(Array(ys)).value[|xs| + i].1))
  {
    var left, right := ValueItems(Array(xs)).value, ValueItems(Array(ys)).value;
    forall j | 0 <= j < |xs| ensures Find(left, Index(j)).Some? {
      FindPosition(xs, j);
    }
    forall j | |xs| <= j < |right| ensures Find(left, Index(j)).None? {
      FindPosition(xs, j);
    }
    AddedOpsFrom(left, right, path, |xs|);
  }

  lemma AddedOpsAt(xs: seq<Value>, ys: seq<Value>, path: string, i: nat)
    requires |xs| < |ys| && i < |ys| - |xs|
    ensures |AddedOps(ValueItems(Array(xs)).value, ValueItems(Array(ys)).value, path)| == |ys| - |xs|
    ensures AddedOps(ValueItems(Array(xs)).value, ValueItems(Array(ys)).value, path)[i] ==
      Add(path + "/" + DecimalString(|xs| + i), IntoSerde(ys[|xs| + i]))
  {
    var left, right := ValueItems(Array(xs)).value, ValueItems(Array(ys)).value;
    ArrayAddedFrom(xs, ys, path);
    var ops := AddedOps(left, right, path);
    assert ops[i] == Add(path + "/" + DecimalString(|xs| + i), IntoSerde(right[|xs| + i].1));
    assert right[|xs| + i].1 == ys[|xs| + i];
  }

  lemma TailAddsAt(xs: seq<Value>, ys: seq<Value>, path: string, i: nat)
    requires |xs| < |ys| && i < |ys| - |xs|
    ensures |TailAdds(xs, ys, path)| == |ys| - |xs|
    ensures TailAdds(xs, ys, path)[i] == Add(path + "/" + DecimalString(|xs| + i), IntoSerde(ys[|xs| + i]))
  {
  }

  /** The addition pass over two arrays adds the right side's extra elements. */
  lemma AddedOpsOfArrays(xs: seq<Value>, ys: seq<Value>, path: string)
    ensures AddedOps(ValueItems(Array(xs)).value, ValueItems(Array(ys)).value, path) == TailAdds(xs, ys, path)
  {
    var left, right := ValueItems(Array(xs)).value, ValueItems(Array(ys)).value;
    var adds, tail := AddedOps(left, right, path), TailAdds(xs, ys, path);
    if |xs| < |ys| {
      forall i | 0 <= i < |tail| ensures |adds| == |tail| && adds[i] == tail[i] {
        AddedTailElement(xs, ys, path, i);
      }
      AddedTailElement(xs, ys, path, 0);
      SameElements(adds, tail);
    } else {
      ArrayKeysFound(xs, ys);
      AddedOpsFrom(left, right, path, |ys|);
    }
  }

  /** The removal pass over two arrays removes the left side's extra positions. */
  lemma RemovedOpsOfArrays(xs: seq<Value>, ys: seq<Value>, path: string)
    ensures RemovedOps(ValueItems(Array(xs)).value, ValueItems(Array(ys)).value, path) == TailRemoves(xs, ys, path)
  {
    var left, right := ValueItems(Array(xs)).value, ValueItems(Array(ys)).value;
    ArrayKeysFound(ys, xs);
    RemovedOpsFrom(left, right, path, Min(|xs|, |ys|));
  }

  /**
   * Two unequal arrays: the shared positions are compared in order, then the
   * elements only the right side has are added, then the positions only the
   * left side has are removed, each at the right side's length.
   */
  lemma ArrayAgainstArray(xs: seq<Value>, ys: seq<Value>, path: string)
    requires !Equal(Array(xs), Array(ys))
    ensures DiffOps(Array(xs), Array(ys), path) ==
      PositionwiseOps(xs, ys, path, Min(|xs|, |ys|)) + TailAdds(xs, ys, path) + TailRemoves(xs, ys, path)
  {
    var left, right := ValueItems(Array(xs)).value, ValueItems(Array(ys)).value;
    assert DiffOps(Array(xs), Array(ys), path) ==
      MatchedOps(Array(xs), right, path) + AddedOps(left, right, path) + RemovedOps(left, right, path);
    MatchedOpsOfArrays(xs, ys, path, |ys|);
    assert right[..|ys|] == right;
    assert Min(|ys|, |xs|) == Min(|xs|, |ys|);
    AddedOpsOfArrays(xs, ys, path);
    RemovedOpsOfArrays(xs, ys, path);
  }

  // ---------------------------------------------------------------------
  // An array against an object: no key is shared, so nothing is replaced;
  // every right-hand entry is added, then every left-hand one removed.
  // ---------------------------------------------------------------------

  lemma {:induction false} MatchedOpsNoneShared(l: Value, right: seq<(Key, Value)>, path: string)
    requires !IsScalar(l)
    requires forall j :: 0 <= j < |right| ==> Find(ValueItems(l).value, right[j].0).None?
    ensures MatchedOps(l, right, path) == []
  {
    if right != [] {
      MatchedOpsNoneShared(l, right[..|right| - 1], path);
    }
  }

  /** The addition pass when no right-hand key is on the left: one add per right-hand entry, in order. */
  lemma {:induction false} AddedOpsAllNew(left: seq<(Key, Value)>, right: seq<(Key, Value)>, path: string)
    requires forall j :: 0 <= j < |right| ==> Find(left, right[j].0).None?
    ensures |AddedOps(left, right, path)| == |right|
    ensures forall i :: 0 <= i < |right| ==>
      AddedOps(left, right, path)[i] == Add(path + "/" + Segment(right[i].0, 0), IntoSerde(right[i].1))
  {
    if right != [] {
      var init, last := right[..|right| - 1], right[|right| - 1];
      AddedOpsAllNew(left, init, path);
      assert AddedOps(left, right, path) == AddedOps(left, init, path) + AddedEntry(left, last, path);
      assert Find(left, last.0).None?;
      var added := Add(path + "/" + Segment(last.0, 0), IntoSerde(last.1));
      assert AddedEntry(left, last, path) == [added];
      forall i | 0 <= i < |right|
        ensures AddedOps(left, right, path)[i] == Add(path + "/" + Segment(right[i].0, 0), IntoSerde(right[i].1))
      {
        var ops, before := AddedOps(left, right, path), AddedOps(left, init, path);
        if i < |init| {
          assert ops[i] == before[i];
          assert before[i] == Add(path + "/" + Segment(init[i].0, 0), IntoSerde(init[i].1));
          assert right[i] == init[i];
        } else {
          assert right[i] == last;
          AppendedLast(before, added);
          assert ops[i] == added;
        }
      }
    }
  }

  /** The removal pass over named items none of which is on the right: one remove per item, in order. */
  lemma {:induction false} RemovedOpsAllNamed(left: seq<(Key, Value)>, right: seq<(Key, Value)>, path: string)
    requires forall j :: 0 <= j < |left| ==> left[j].0.Name? && Find(right, left[j].0).None?
    ensures |RemovedOps(left, right, path)| == |left|
    ensures forall i :: 0 <= i < |left| ==>
      RemovedOps(left, right, path)[i] == Remove(path + "/" + Escape(left[i].0.name))
  {
    if left != [] {
      var init, k := left[..|left| - 1], left[|left| - 1].0;
      RemovedOpsAllNamed(init, right, path);
      assert Segment(k, RemovedShift(init, right)) == Escape(k.name);
      var removed := Remove(path + "/" + Escape(k.name));
      assert RemovedEntry(k, right, RemovedShift(init, right), path) == [removed];
      assert RemovedOps(left, right, path) == RemovedOps(init, right, path) + [removed];
      forall i | 0 <= i < |left|
        ensures RemovedOps(left, right, path)[i] == Remove(path + "/" + Escape(left[i].0.name))
      {
        var ops, before := RemovedOps(left, right, path), RemovedOps(init, right, path);
        if i < |init| {
          assert ops[i] == before[i];
          assert before[i] == Remove(path + "/" + Escape(init[i].0.name));
          assert left[i] == init[i];
        } else {
          assert left[i].0 == k;
          AppendedLast(before, removed);
          assert ops[i] == removed;
        }
      }
    }
  }

  /** Each entry of an object added under its escaped key, in the object's order. */
  function AddEntries(es: seq<(string, Value)>, path: string): seq<PatchOperation> {
    seq(|es|, i requires 0 <= i < |es| => Add(path + "/" + Escape(es[i].0), IntoSerde(es[i].1)))
  }

  /** Each element of an array added at its own position. */
  function AddElements(xs: seq<Value>, path: string): seq<PatchOperation> {
    seq(|xs|, i requires 0 <= i < |xs| => Add(path + "/" + DecimalString(i), IntoSerde(xs[i])))
  }

  /** Each entry of an object removed under its escaped key, in the object's order. */
  function RemoveEntries(es: seq<(string, Value)>, path: string): seq<PatchOperation> {
    seq(|es|, i requires 0 <= i < |es| => Remove(path + "/" + Escape(es[i].0)))
  }

  /** An array and an object share no key, looked up either way. */
  lemma NoKeyShared(xs: seq<Value>, es: seq<(string, Value)>)
    ensures forall j :: 0 <= j < |es| ==> Find(ValueItems(Array(xs)).value, ValueItems(Object(es)).value[j].0).None?
    ensures forall j :: 0 <= j < |xs| ==> Find(ValueItems(Object(es)).value, ValueItems(Array(xs)).value[j].0).None?
  {
    forall j | 0 <= j < |es| ensures Find(ValueItems(Array(xs)).value, ValueItems(Object(es)).value[j].0).None? {
      FindAcrossKinds(xs, es, 0, es[j].0);
    }
    forall j | 0 <= j < |xs| ensures Find(ValueItems(Object(es)).value, ValueItems(Array(xs)).value[j].0).None? {
      FindAcrossKinds(xs, es, j, "");
    }
  }

  lemma ArrayObjectPasses(xs: seq<Value>, es: seq<(string, Value)>, path: string)
    ensures MatchedOps(Array(xs), ValueItems(Object(es)).value, path) == []
    ensures AddedOps(ValueItems(Array(xs)).value, ValueItems(Object(es)).value, path) == AddEntries(es, path)
    ensures RemovedOps(ValueItems(Array(xs)).value, ValueItems(Object(es)).value, path) ==
      seq(|xs|, _ => Remove(path + "/" + DecimalString(0)))
  {
    var left, right := ValueItems(Array(xs)).value, ValueItems(Object(es)).value;
    NoKeyShared(xs, es);
    MatchedOpsNoneShared(Array(xs), right, path);
    AddedOpsAllNew(left, right, path);
    var added := AddedOps(left, right, path);
    forall i | 0 <= i < |es| ensures added[i] == AddEntries(es, path)[i] {
      assert right[i] == (Name(es[i].0), es[i].1);
      assert Segment(right[i].0, 0) == Escape(es[i].0);
    }
    SameElements(added, AddEntries(es, path));
    RemovedOpsFrom(left, right, path, 0);
  }

  lemma ObjectArrayPasses(es: seq<(string, Value)>, xs: seq<Value>, path: string)
    ensures MatchedOps(Object(es), ValueItems(Array(xs)).value, path) == []
    ensures AddedOps(ValueItems(Object(es)).value, ValueItems(Array(xs)).value, path) == AddElements(xs, path)
    ensures RemovedOps(ValueItems(Object(es)).value, ValueItems(Array(xs)).value, path) == RemoveEntries(es, path)
  {
    var right := ValueItems(Array(xs)).value;
    NoKeyShared(xs, es);
    MatchedOpsNoneShared(Object(es), right, path);
    ObjectArrayAdds(es, xs, path);
    ObjectArrayRemoves(es, xs, path);
  }

  lemma ObjectArrayAdds(es: seq<(string, Value)>, xs: seq<Value>, path: string)
    ensures AddedOps(ValueItems(Object(es)).value, ValueItems(Array(xs)).value, path) == AddElements(xs, path)
  {
    var left, right := ValueItems(Object(es)).value, ValueItems(Array(xs)).value;
    NoKeyShared(xs, es);
    AddedOpsFrom(left, right, path, 0);
    var added := AddedOps(left, right, path);
    forall i | 0 <= i < |xs| ensures added[i] == AddElements(xs, path)[i] {
      assert added[i] == Add(path + "/" + DecimalString(0 + i), IntoSerde(right[0 + i].1));
      assert right[i].1 == xs[i];
    }
    SameElements(added, AddElements(xs, path));
  }

  lemma ObjectArrayRemoves(es: seq<(string, Value)>, xs: seq<Value>, path: string)
    ensures RemovedOps(ValueItems(Object(es)).value, ValueItems(Array(xs)).value, path) == RemoveEntries(es, path)
  {
    var left, right := ValueItems(Object(es)).value, ValueItems(Array(xs)).value;
    NoKeyShared(xs, es);
    RemovedOpsAllNamed(left, right, path);
    var removed := RemovedOps(left, right, path);
    forall i | 0 <= i < |es| ensures removed[i] == RemoveEntries(es, path)[i] {
      assert left[i].0.name == es[i].0;
    }
    SameElements(removed, RemoveEntries(es, path));
  }

  /**
   * An array compared with an object: the object's entries are added, then
   * the array's elements are removed, each at position 0. There is no
   * `replace` of the whole value.
   */
  lemma ArrayAgainstObject(xs: seq<Value>, es: seq<(string, Value)>, path: string)
    ensures DiffOps(Array(xs), Object(es), path) ==
      AddEntries(es, path) + seq(|xs|, _ => Remove(path + "/" + DecimalString(0)))
  {
    var left, right := ValueItems(Array(xs)).value, ValueItems(Object(es)).value;
    DiffOpsOfContainers(Array(xs), Object(es), path);
    ArrayObjectPasses(xs, es, path);
    assert [] + AddEntries(es, path) == AddEntries(es, path);
  }

  /**
   * An object compared with an array: the array's elements are added at
   * their positions, then the object's entries are removed. There is no
   * `replace` of the whole value.
   */
  lemma ObjectAgainstArray(es: seq<(string, Value)>, xs: seq<Value>, path: string)
    ensures DiffOps(Object(es), Array(xs), path) == AddElements(xs, path) + RemoveEntries(es, path)
  {
    var left, right := ValueItems(Object(es)).value, ValueItems(Array(xs)).value;
    DiffOpsOfContainers(Object(es), Array(xs), path);
    ObjectArrayPasses(es, xs, path);
    assert [] + AddElements(xs, path) == AddElements(xs, path);
  }

  /** In particular an empty array and an empty object, though unequal, produce no operation at all. */
  lemma EmptyArrayAgainstEmptyObject(path: string)
    ensures !Equal(Array([]), Object([]))
    ensures DiffOps(Array([]), Object([]), path) == []
    ensures DiffOps(Object([]), Array([]), path) == []
  {
    ArrayAgainstObject([], [], path);
    ObjectAgainstArray([], [], path);
  }

  // ---------------------------------------------------------------------
  // Two objects with the same keys in the same order are compared entry by
  // entry, each under its escaped key.
  // ---------------------------------------------------------------------

  /** Entry `i` of one object compared with entry `i` of the other, for the first `n` entries. */
  function EntrywiseOps(es: seq<(string, Value)>, fs: seq<(string, Value)>, path: string, n: nat): seq<PatchOperation>
    requires n <= |es| && n <= |fs|
  {
    if n == 0 then []
    else EntrywiseOps(es, fs, path, n - 1) + DiffOps(es[n - 1].1, fs[n - 1].1, path + "/" + Escape(fs[n - 1].0))
  }

  predicate SameKeys(es: seq<(string, Value)>, fs: seq<(string, Value)>) {
    |es| == |fs| && forall i :: 0 <= i < |es| ==> es[i].0 == fs[i].0
  }

  /** With distinct keys, the key of entry `i` is found at `i`. */
  lemma FindOwnKey(es: seq<(string, Value)>, i: nat)
    requires SerdeJson.DistinctKeys(es) && i < |es|
    ensures Find(ValueItems(Object(es)).value, Name(es[i].0)) == Some(i)
  {
    var items := ValueItems(Object(es)).value;
    assert items[i].0 == Name(es[i].0);
  }

  lemma {:induction false} MatchedOpsOfSameKeys(es: seq<(string, Value)>, fs: seq<(string, Value)>, path: string, n: nat)
    requires SerdeJson.DistinctKeys(es) && SameKeys(es, fs) && n <= |fs|
    ensures MatchedOps(Object(es), ValueItems(Object(fs)).value[..n], path) == EntrywiseOps(es, fs, path, n)
  {
    var right := ValueItems(Object(fs)).value;
    if n > 0 {
      MatchedOpsOfSameKeys(es, fs, path, n - 1);
      MatchedOpsStep(Object(es), right, n - 1, path);
      SameKeysEntry(es, fs, path, n - 1);
    } else {
      assert right[..0] == [];
    }
  }

  /** With the same keys at the same places, the first pass compares entry `i` with entry `i`. */
  lemma SameKeysEntry(es: seq<(string, Value)>, fs: seq<(string, Value)>, path: string, i: nat)
    requires SerdeJson.DistinctKeys(es) && SameKeys(es, fs) && i < |fs|
    ensures MatchedEntry(Object(es), ValueItems(Object(fs)).value[i], path)
         == DiffOps(es[i].1, fs[i].1, path + "/" + Escape(fs[i].0))
  {
    var entry := ValueItems(Object(fs)).value[i];
    var left := ValueItems(Object(es)).value;
    assert entry == (Name(fs[i].0), fs[i].1);
    assert fs[i].0 == es[i].0;
    FindOwnKey(es, i);
    assert Find(left, entry.0) == Some(i);
    assert left[i].1 == es[i].1;
    assert Segment(entry.0, 0) == Escape(fs[i].0);
  }

  lemma {:induction false} AddedOpsNoneNew(left: seq<(Key, Value)>, right: seq<(Key, Value)>, path: string)
    requires forall j :: 0 <= j < |right| ==> Find(left, right[j].0).Some?
    ensures AddedOps(left, right, path) == []
  {
    if right != [] {
      AddedOpsNoneNew(left, right[..|right| - 1], path);
    }
  }

  lemma {:induction false} RemovedOpsNoneGone(left: seq<(Key, Value)>, right: seq<(Key, Value)>, path: string)
    requires IndexKeysAtLeastPosition(left)
    requires forall j :: 0 <= j < |left| ==> Find(right, left[j].0).Some?
    ensures RemovedOps(left, right, path) == []
  {
    if left != [] {
      RemovedOpsNoneGone(left[..|left| - 1], right, path);
    }
  }

  /**
   * Two unequal objects with the same keys in the same order: each entry is
   * compared with its counterpart, in order, and nothing is added or removed.
   */
  lemma ObjectAgainstSameKeys(es: seq<(string, Value)>, fs: seq<(string, Value)>, path: string)
    requires SerdeJson.DistinctKeys(es) && SameKeys(es, fs)
    requires !Equal(Object(es), Object(fs))
    ensures DiffOps(Object(es), Object(fs), path) == EntrywiseOps(es, fs, path, |fs|)
  {
    var left, right := ValueItems(Object(es)).value, ValueItems(Object(fs)).value;
    assert DiffOps(Object(es), Object(fs), path) ==
      MatchedOps(Object(es), right, path) + AddedOps(left, right, path) + RemovedOps(left, right, path);
    MatchedOpsOfSameKeys(es, fs, path, |fs|);
    assert right[..|fs|] == right;
    SameKeysAddNothing(es, fs, path);
    SameKeysRemoveNothing(es, fs, path);
    var matched := MatchedOps(Object(es), right, path);
    assert matched + [] + [] == matched;
  }

  lemma SameKeysAddNothing(es: seq<(string, Value)>, fs: seq<(string, Value)>, path: string)
    requires SerdeJson.DistinctKeys(es) && SameKeys(es, fs)
    ensures AddedOps(ValueItems(Object(es)).value, ValueItems(Object(fs)).value, path) == []
  {
    var left, right := ValueItems(Object(es)).value, ValueItems(Object(fs)).value;
    forall j | 0 <= j < |right| ensures Find(left, right[j].0).Some? {
      FindOwnKey(es, j);
    }
    AddedOpsNoneNew(left, right, path);
  }

  lemma SameKeysRemoveNothing(es: seq<(string, Value)>, fs: seq<(string, Value)>, path: string)
    requires SameKeys(es, fs)
    ensures RemovedOps(ValueItems(Object(es)).value, ValueItems(Object(fs)).value, path) == []
  {
    var left, right := ValueItems(Object(es)).value, ValueItems(Object(fs)).value;
    forall j | 0 <= j < |left| ensures Find(right, left[j].0).Some? {
      assert left[j].0 == right[j].0;
    }
    RemovedOpsNoneGone(left, right, path);
  }
}
