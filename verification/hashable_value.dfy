/**
 * The value model the comparator walks (hashable_value.rs): a closed sum
 * over the six JSON shapes, structural equality in which an object is a
 * map (entry order is ignored), lossless conversion to and from the
 * external representation, and the tag-prefixed hash stream.
 */
module HashableValue {
  import opened Wrappers
  import SerdeJson

  datatype Value =
    | Null
    | Bool(b: bool)
    | Number(n: SerdeJson.Number)
    | String(s: string)
    | Array(arr: seq<Value>)
    | Object(obj: seq<(string, Value)>)

  /** Every object, at any depth, has distinct keys: the invariant of an `IndexMap`. */
  predicate WellFormed(v: Value) {
    match v
    case Array(xs) => forall i :: 0 <= i < |xs| ==> WellFormed(xs[i])
    case Object(es) =>
      SerdeJson.DistinctKeys(es) && forall i :: 0 <= i < |es| ==> WellFormed(es[i].1)
    case _ => true
  }

  /** The value an `IndexMap` holds under `key` (the first entry with that key). */
  function Get(entries: seq<(string, Value)>, key: string): (r: Option<Value>)
    ensures r.None? <==> forall i :: 0 <= i < |entries| ==> entries[i].0 != key
  {
    if entries == [] then None
    else if entries[0].0 == key then Some(entries[0].1)
    else Get(entries[1..], key)
  }

  lemma {:induction false} GetDistinct(entries: seq<(string, Value)>, i: nat)
    requires SerdeJson.DistinctKeys(entries) && i < |entries|
    ensures Get(entries, entries[i].0) == Some(entries[i].1)
  {
    if i > 0 {
      assert entries[0].0 != entries[i].0;
      GetDistinct(entries[1..], i - 1);
    }
  }

  /**
   * The derived `PartialEq`: variants must agree; arrays compare element by
   * element; objects compare as `IndexMap`s do, by length and by looking up
   * every left entry on the right, so entry order does not matter.
   */
  predicate Equal(a: Value, b: Value)
    ensures Equal(a, b) ==>
      a.Null? == b.Null? && a.Bool? == b.Bool? && a.Number? == b.Number? &&
      a.String? == b.String? && a.Array? == b.Array? && a.Object? == b.Object?
    ensures Equal(a, b) && a.Object? ==> |a.obj| == |b.obj|
  {
    match a
    case Null => b.Null?
    case Bool(x) => b.Bool? && b.b == x
    case Number(x) => b.Number? && b.n == x
    case String(x) => b.String? && b.s == x
    case Array(xs) =>
      b.Array? && |xs| == |b.arr| && forall i :: 0 <= i < |xs| ==> Equal(xs[i], b.arr[i])
    case Object(es) =>
      b.Object? && |es| == |b.obj| &&
      forall i :: 0 <= i < |es| ==>
        var found := Get(b.obj, es[i].0); found.Some? && Equal(es[i].1, found.value)
  }

  /** Equality is reflexive on values whose objects have distinct keys. */
  lemma {:induction false} EqualReflexive(v: Value)
    requires WellFormed(v)
    ensures Equal(v, v)
  {
    match v
    case Array(xs) =>
      forall i | 0 <= i < |xs| ensures Equal(xs[i], xs[i]) {
        EqualReflexive(xs[i]);
      }
    case Object(es) =>
      forall i | 0 <= i < |es|
        ensures Get(es, es[i].0) == Some(es[i].1) && Equal(es[i].1, es[i].1)
      {
        GetDistinct(es, i);
        EqualReflexive(es[i].1);
      }
    case _ =>
  }

  /**
   * Two objects holding the same entries in any order are equal, although
   * as data (`==`) they differ whenever the order differs.
   */
  lemma EqualIgnoresEntryOrder(es: seq<(string, Value)>, fs: seq<(string, Value)>)
    requires WellFormed(Object(es)) && SerdeJson.DistinctKeys(fs)
    requires multiset(es) == multiset(fs)
    ensures Equal(Object(es), Object(fs))
    ensures es != fs ==> Object(es) != Object(fs)
  {
    assert |es| == |multiset(es)| == |multiset(fs)| == |fs|;
    forall i | 0 <= i < |es|
      ensures Get(fs, es[i].0) == Some(es[i].1) && Equal(es[i].1, es[i].1)
    {
      assert es[i] in multiset(es);
      assert es[i] in fs;
      var j :| 0 <= j < |fs| && fs[j] == es[i];
      GetDistinct(fs, j);
      EqualReflexive(es[i].1);
    }
  }

  /**
   * The shape `to` has in common with `from`: the same variant with the
   * same scalar payload, the same array length, and the same object keys in
   * the same order.
   */
  predicate Mirrors(j: SerdeJson.Json, v: Value) {
    match j
    case Null => v.Null?
    case Bool(b) => v == Bool(b)
    case Number(n) => v == Number(n)
    case String(s) => v == String(s)
    case Array(elems) => v.Array? && |v.arr| == |elems|
    case Object(entries) =>
      v.Object? && |v.obj| == |entries| &&
      forall i :: 0 <= i < |entries| ==> v.obj[i].0 == entries[i].0
  }

  /** `Value::from_serde`: variant by variant, element by element, entry by entry. */
  function FromSerde(j: SerdeJson.Json): (v: Value)
    ensures Mirrors(j, v)
    ensures SerdeJson.WellFormed(j) ==> WellFormed(v)
  {
    match j
    case Null => Null
    case Bool(b) => Bool(b)
    case Number(n) => Number(n)
    case String(s) => String(s)
    case Array(elems) =>
      Array(seq(|elems|, i requires 0 <= i < |elems| => FromSerde(elems[i])))
    case Object(entries) =>
      Object(seq(|entries|, i requires 0 <= i < |entries| => (entries[i].0, FromSerde(entries[i].1))))
  }

  /** `Value::into_serde`, the inverse conversion. */
  function IntoSerde(v: Value): (j: SerdeJson.Json)
    ensures Mirrors(j, v)
    ensures WellFormed(v) ==> SerdeJson.WellFormed(j)
  {
    match v
    case Null => SerdeJson.Null
    case Bool(b) => SerdeJson.Bool(b)
    case Number(n) => SerdeJson.Number(n)
    case String(s) => SerdeJson.String(s)
    case Array(xs) =>
      SerdeJson.Array(seq(|xs|, i requires 0 <= i < |xs| => IntoSerde(xs[i])))
    case Object(es) =>
      SerdeJson.Object(seq(|es|, i requires 0 <= i < |es| => (es[i].0, IntoSerde(es[i].1))))
  }

  lemma {:induction false} IntoFromSerde(j: SerdeJson.Json)
    ensures IntoSerde(FromSerde(j)) == j
  {
    match j
    case Array(elems) =>
      forall i | 0 <= i < |elems| ensures IntoSerde(FromSerde(elems[i])) == elems[i] {
        IntoFromSerde(elems[i]);
      }
    case Object(entries) =>
      forall i | 0 <= i < |entries| ensures IntoSerde(FromSerde(entries[i].1)) == entries[i].1 {
        IntoFromSerde(entries[i].1);
      }
    case _ =>
  }

  lemma {:induction false} FromIntoSerde(v: Value)
    ensures FromSerde(IntoSerde(v)) == v
  {
    match v
    case Array(xs) =>
      forall i | 0 <= i < |xs| ensures FromSerde(IntoSerde(xs[i])) == xs[i] {
        FromIntoSerde(xs[i]);
      }
    case Object(es) =>
      forall i | 0 <= i < |es| ensures FromSerde(IntoSerde(es[i].1)) == es[i].1 {
        FromIntoSerde(es[i].1);
      }
    case _ =>
  }

  // ---------------------------------------------------------------------
  // Hashing. The hasher is foreign; what is modelled is the stream of
  // writes a value makes into it. `U8` is `write_u8`, `Usize` the length
  // prefix a slice writes, and `Str` / `NumberBits` stand for whatever
  // `str` and `serde_json::Number` write.
  // ---------------------------------------------------------------------

  datatype HashToken = U8(byte: nat) | Usize(len: nat) | Str(text: string) | NumberBits(num: SerdeJson.Number)

  /** `impl Hash for Value`: a tag byte, then the payload. */
  function Hash(v: Value): (r: seq<HashToken>)
    ensures |r| >= 1 && r[0].U8?
  {
    match v
    case Null => [U8(0)]
    case Bool(b) => [U8(1), U8(if b then 1 else 0)]
    case Number(n) => [U8(2), NumberBits(n)]
    case String(s) => [U8(3), Str(s)]
    case Array(xs) =>
      // a slice writes its length, then each element
      [U8(4), Usize(|xs|)] + Concat(seq(|xs|, i requires 0 <= i < |xs| => Hash(xs[i])))
    case Object(es) =>
      // the `for_each` over the entries: key, then value, and no count
      [U8(5)] + Concat(seq(|es|, i requires 0 <= i < |es| => [Str(es[i].0)] + Hash(es[i].1)))
  }

  /** The writes of several parts, one part after the other. */
  function Concat(parts: seq<seq<HashToken>>): seq<HashToken> {
    if parts == [] then [] else parts[0] + Concat(parts[1..])
  }

  lemma {:induction false} ConcatAppend(parts: seq<seq<HashToken>>, last: seq<HashToken>)
    ensures Concat(parts + [last]) == Concat(parts) + last
  {
    if parts == [] {
      assert parts + [last] == [last];
    } else {
      assert (parts + [last])[1..] == parts[1..] + [last];
      ConcatAppend(parts[1..], last);
    }
  }

  predicate SameVariant(a: Value, b: Value) {
    (a.Null? && b.Null?) || (a.Bool? && b.Bool?) || (a.Number? && b.Number?) ||
    (a.String? && b.String?) || (a.Array? && b.Array?) || (a.Object? && b.Object?)
  }

  /** The first write tells the variants apart: tags 0 to 5, one per variant. */
  lemma HashTagsDistinct(a: Value, b: Value)
    ensures Hash(a)[0] == Hash(b)[0] <==> SameVariant(a, b)
    ensures a.Null? ==> Hash(a)[0] == U8(0)
    ensures a.Bool? ==> Hash(a)[0] == U8(1)
    ensures a.Number? ==> Hash(a)[0] == U8(2)
    ensures a.String? ==> Hash(a)[0] == U8(3)
    ensures a.Array? ==> Hash(a)[0] == U8(4)
    ensures a.Object? ==> Hash(a)[0] == U8(5)
  {
  }

  /** Null writes exactly its tag, and no other value writes that stream. */
  lemma NullHash(v: Value)
    ensures Hash(v) == [U8(0)] <==> v.Null?
  {
    HashTagsDistinct(v, Null);
  }

  /** An object writes no entry count: one more entry only extends its stream. */
  lemma ObjectHashAppend(es: seq<(string, Value)>, key: string, v: Value)
    ensures Hash(Object(es + [(key, v)])) == Hash(Object(es)) + [Str(key)] + Hash(v)
  {
    var es' := es + [(key, v)];
    var parts := seq(|es|, i requires 0 <= i < |es| => [Str(es[i].0)] + Hash(es[i].1));
    var parts' := seq(|es'|, i requires 0 <= i < |es'| => [Str(es'[i].0)] + Hash(es'[i].1));
    forall i | 0 <= i < |es| ensures parts'[i] == parts[i] {
      assert es'[i] == es[i];
    }
    assert parts'[|es|] == [Str(key)] + Hash(v);
    assert parts' == parts + [[Str(key)] + Hash(v)];
    ConcatAppend(parts, [Str(key)] + Hash(v));
  }

  /** An object of one entry writes its tag, the key and the value. */
  lemma OneEntryHash(k: string, v: Value)
    ensures Hash(Object([(k, v)])) == [U8(5), Str(k)] + Hash(v)
  {
    ObjectHashAppend([], k, v);
    assert [] + [(k, v)] == [(k, v)];
  }

  /** An object of two entries writes its tag, then each key and value in entry order. */
  lemma TwoEntryHash(k: string, v: Value, k2: string, v2: Value)
    ensures Hash(Object([(k, v), (k2, v2)])) == [U8(5), Str(k)] + Hash(v) + [Str(k2)] + Hash(v2)
  {
    OneEntryHash(k, v);
    ObjectHashAppend([(k, v)], k2, v2);
    assert [(k, v)] + [(k2, v2)] == [(k, v), (k2, v2)];
  }

  /** Two values that are equal (entry order aside) but write different streams. */
  lemma HashSeesEntryOrder()
    ensures Equal(Object([("a", Null), ("b", Bool(true))]), Object([("b", Bool(true)), ("a", Null)]))
    ensures Hash(Object([("a", Null), ("b", Bool(true))])) != Hash(Object([("b", Bool(true)), ("a", Null)]))
  {
    var fs := [("b", Bool(true)), ("a", Null)];
    assert Get(fs, "a") == Some(Null) by {
      assert fs[1..] == [("a", Null)];
    }
    assert Get(fs, "b") == Some(Bool(true));
    TwoEntryHash("a", Null, "b", Bool(true));
    TwoEntryHash("b", Bool(true), "a", Null);
    assert Hash(Object([("a", Null), ("b", Bool(true))]))[1] == Str("a");
  }

  /**
   * As written, an object writes no entry count, so a nested object and its
   * flattened sibling write the same stream though they are not equal.
   */
  lemma HashPrefixCollision(k: string, k2: string, v: Value)
    ensures !Equal(Object([(k, Object([(k2, v)]))]), Object([(k, Object([])), (k2, v)]))
    ensures Hash(Object([(k, Object([(k2, v)]))])) == Hash(Object([(k, Object([])), (k2, v)]))
  {
    OneEntryHash(k, Object([(k2, v)]));
    OneEntryHash(k2, v);
    TwoEntryHash(k, Object([]), k2, v);
    assert Hash(Object([])) == [U8(5)];
    assert [U8(5), Str(k)] + ([U8(5), Str(k2)] + Hash(v)) == [U8(5), Str(k)] + [U8(5)] + [Str(k2)] + Hash(v);
  }


  // ---------------------------------------------------------------------
  // The hash with the entry count written after the object tag, as slices
  // and strings already write their length: the stream then determines the
  // value, and no stream is a proper prefix of another value's stream.
  // ---------------------------------------------------------------------

  /** The corrected `impl Hash for Value`: as `Hash`, but an object writes its entry count. */
  function CountedHash(v: Value): (r: seq<HashToken>)
    ensures |r| >= 1 && r[0].U8?
    decreases v, 1
  {
    match v
    case Null => [U8(0)]
    case Bool(b) => [U8(1), U8(if b then 1 else 0)]
    case Number(n) => [U8(2), NumberBits(n)]
    case String(s) => [U8(3), Str(s)]
    case Array(xs) => [U8(4), Usize(|xs|)] + CountedElements(v, 0)
    case Object(es) => [U8(5), Usize(|es|)] + CountedEntries(v, 0)
  }

  /** The elements of array `v` from position `i` on, one after the other. */
  function CountedElements(v: Value, i: nat): seq<HashToken>
    requires v.Array? && i <= |v.arr|
    decreases v, 0, |v.arr| - i
  {
    if i == |v.arr| then [] else CountedHash(v.arr[i]) + CountedElements(v, i + 1)
  }

  /** The entries of object `v` from position `i` on: each key, then its value. */
  function CountedEntries(v: Value, i: nat): seq<HashToken>
    requires v.Object? && i <= |v.obj|
    decreases v, 0, |v.obj| - i
  {
    if i == |v.obj| then [] else [Str(v.obj[i].0)] + CountedHash(v.obj[i].1) + CountedEntries(v, i + 1)
  }

  /**
   * Whatever follows them, two counted streams agree only if they come from
   * the same value: the stream is prefix-free and determines the value.
   */
  lemma {:induction false} CountedHashPrefixFree(a: Value, b: Value, s: seq<HashToken>, t: seq<HashToken>)
    requires CountedHash(a) + s == CountedHash(b) + t
    ensures a == b && s == t
    decreases a, 1
  {
    var ha, hb := CountedHash(a), CountedHash(b);
    assert (ha + s)[0] == ha[0] && (hb + t)[0] == hb[0];
    match a
    case Null =>
      assert b.Null?;
      assert s == (ha + s)[1..] && t == (hb + t)[1..];
    case Bool(x) =>
      assert b.Bool? && (ha + s)[1] == U8(if x then 1 else 0) && (hb + t)[1] == U8(if b.b then 1 else 0);
      assert s == (ha + s)[2..] && t == (hb + t)[2..];
    case Number(n) =>
      assert b.Number? && (ha + s)[1] == NumberBits(n) && (hb + t)[1] == NumberBits(b.n);
      assert s == (ha + s)[2..] && t == (hb + t)[2..];
    case String(x) =>
      assert b.String? && (ha + s)[1] == Str(x) && (hb + t)[1] == Str(b.s);
      assert s == (ha + s)[2..] && t == (hb + t)[2..];
    case Array(xs) =>
      assert b.Array?;
      CountedArrayPrefixFree(a, b, s, t);
    case Object(es) =>
      assert b.Object?;
      CountedObjectPrefixFree(a, b, s, t);
  }

  lemma {:induction false} CountedArrayPrefixFree(a: Value, b: Value, s: seq<HashToken>, t: seq<HashToken>)
    requires a.Array? && b.Array? && CountedHash(a) + s == CountedHash(b) + t
    ensures a == b && s == t
    decreases a, 0
  {
    var ha, hb := CountedHash(a), CountedHash(b);
    assert (ha + s)[1] == Usize(|a.arr|) && (hb + t)[1] == Usize(|b.arr|);
    assert (ha + s)[2..] == CountedElements(a, 0) + s;
    assert (hb + t)[2..] == CountedElements(b, 0) + t;
    CountedElementsPrefixFree(a, b, 0, s, t);
    assert a.arr[0..] == a.arr && b.arr[0..] == b.arr;
  }

  lemma {:induction false} CountedObjectPrefixFree(a: Value, b: Value, s: seq<HashToken>, t: seq<HashToken>)
    requires a.Object? && b.Object? && CountedHash(a) + s == CountedHash(b) + t
    ensures a == b && s == t
    decreases a, 0
  {
    var ha, hb := CountedHash(a), CountedHash(b);
    assert (ha + s)[1] == Usize(|a.obj|) && (hb + t)[1] == Usize(|b.obj|);
    assert (ha + s)[2..] == CountedEntries(a, 0) + s;
    assert (hb + t)[2..] == CountedEntries(b, 0) + t;
    CountedEntriesPrefixFree(a, b, 0, s, t);
    assert a.obj[0..] == a.obj && b.obj[0..] == b.obj;
  }

  lemma {:induction false} CountedElementsPrefixFree(a: Value, b: Value, i: nat, s: seq<HashToken>, t: seq<HashToken>)
    requires a.Array? && b.Array? && |a.arr| == |b.arr| && i <= |a.arr|
    requires CountedElements(a, i) + s == CountedElements(b, i) + t
    ensures a.arr[i..] == b.arr[i..] && s == t
    decreases a, 0, |a.arr| - i
  {
    if i < |a.arr| {
      var ra, rb := CountedElements(a, i + 1) + s, CountedElements(b, i + 1) + t;
      assert CountedElements(a, i) + s == CountedHash(a.arr[i]) + ra by {
        AppendAssociative(CountedHash(a.arr[i]), CountedElements(a, i + 1), s);
      }
      assert CountedElements(b, i) + t == CountedHash(b.arr[i]) + rb by {
        AppendAssociative(CountedHash(b.arr[i]), CountedElements(b, i + 1), t);
      }
      CountedHashPrefixFree(a.arr[i], b.arr[i], ra, rb);
      CountedElementsPrefixFree(a, b, i + 1, s, t);
      assert a.arr[i..] == [a.arr[i]] + a.arr[i + 1..];
      assert b.arr[i..] == [b.arr[i]] + b.arr[i + 1..];
    } else {
      assert CountedElements(a, i) + s == s && CountedElements(b, i) + t == t;
    }
  }

  lemma {:induction false} CountedEntriesPrefixFree(a: Value, b: Value, i: nat, s: seq<HashToken>, t: seq<HashToken>)
    requires a.Object? && b.Object? && |a.obj| == |b.obj| && i <= |a.obj|
    requires CountedEntries(a, i) + s == CountedEntries(b, i) + t
    ensures a.obj[i..] == b.obj[i..] && s == t
    decreases a, 0, |a.obj| - i
  {
    if i < |a.obj| {
      var ra, rb := CountedEntries(a, i + 1) + s, CountedEntries(b, i + 1) + t;
      var sa, sb := [Str(a.obj[i].0)] + CountedHash(a.obj[i].1) + ra, [Str(b.obj[i].0)] + CountedHash(b.obj[i].1) + rb;
      assert CountedEntries(a, i) + s == sa by {
        AppendAssociative([Str(a.obj[i].0)] + CountedHash(a.obj[i].1), CountedEntries(a, i + 1), s);
      }
      assert CountedEntries(b, i) + t == sb by {
        AppendAssociative([Str(b.obj[i].0)] + CountedHash(b.obj[i].1), CountedEntries(b, i + 1), t);
      }
      assert sa[0] == Str(a.obj[i].0) && sb[0] == Str(b.obj[i].0);
      assert sa[1..] == CountedHash(a.obj[i].1) + ra by {
        AppendAssociative([Str(a.obj[i].0)], CountedHash(a.obj[i].1), ra);
      }
      assert sb[1..] == CountedHash(b.obj[i].1) + rb by {
        AppendAssociative([Str(b.obj[i].0)], CountedHash(b.obj[i].1), rb);
      }
      CountedHashPrefixFree(a.obj[i].1, b.obj[i].1, ra, rb);
      CountedEntriesPrefixFree(a, b, i + 1, s, t);
      assert a.obj[i..] == [a.obj[i]] + a.obj[i + 1..];
      assert b.obj[i..] == [b.obj[i]] + b.obj[i + 1..];
    } else {
      assert CountedEntries(a, i) + s == s && CountedEntries(b, i) + t == t;
    }
  }

  /** Concatenation regroups freely. */
  lemma AppendAssociative<T>(x: seq<T>, y: seq<T>, z: seq<T>)
    ensures (x + y) + z == x + (y + z)
  {
  }

  /** Unequal values write different counted streams; the pair above no longer collides. */
  lemma CountedHashSeparatesUnequal(a: Value, b: Value)
    requires WellFormed(a) && !Equal(a, b)
    ensures CountedHash(a) != CountedHash(b)
  {
    if CountedHash(a) == CountedHash(b) {
      assert CountedHash(a) + [] == CountedHash(b) + [];
      CountedHashPrefixFree(a, b, [], []);
      EqualReflexive(a);
    }
  }
}
