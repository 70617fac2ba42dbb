/**
 * The paths of the documentation example spelled out: its keys need no
 * escaping, kept apart from the diff so that only strings are in view.
 */
module DocLiterals {
  import opened Paths

  lemma AuthorLiteral()
    ensures "" + "/" + "author" + "/" + "familyName" == "/author/familyName"
  {
  }

  lemma TagsLiteral()
    ensures "" + "/" + "tags" + "/1" == "/tags/1"
  {
  }

  lemma TitleLiteral()
    ensures "" + "/" + "title" == "/title"
  {
  }

  lemma PhoneLiteral()
    ensures "" + "/" + "phoneNumber" == "/phoneNumber"
  {
  }

  /** A key with neither `~` nor `/` stands for itself in a path. */
  lemma PlainSegment(path: string, key: string)
    requires '~' !in key && '/' !in key
    ensures path + "/" + Escape(key) == path + "/" + key
  {
    EscapePlain(key);
  }

  /** Two such keys, one below the other. */
  lemma PlainSegments(path: string, parent: string, child: string)
    requires '~' !in parent && '/' !in parent && '~' !in child && '/' !in child
    ensures path + "/" + Escape(parent) + "/" + Escape(child) == path + "/" + parent + "/" + child
  {
    EscapePlain(parent);
    EscapePlain(child);
  }

  /** An array position below such a key. */
  lemma PlainSegmentFirst(path: string, key: string)
    requires '~' !in key && '/' !in key
    ensures path + "/" + Escape(key) + "/1" == path + "/" + key + "/1"
  {
    EscapePlain(key);
  }

  lemma AuthorPath()
    ensures "" + "/" + Escape("author") + "/" + Escape("familyName") == "/author/familyName"
  {
    PlainSegments("", "author", "familyName");
    AuthorLiteral();
  }

  lemma TagsPath()
    ensures "" + "/" + Escape("tags") + "/1" == "/tags/1"
  {
    PlainSegmentFirst("", "tags");
    TagsLiteral();
  }

  lemma TitlePath()
    ensures "" + "/" + Escape("title") == "/title"
  {
    PlainSegment("", "title");
    TitleLiteral();
  }

  lemma PhonePath()
    ensures "" + "/" + Escape("phoneNumber") == "/phoneNumber"
  {
    PlainSegment("", "phoneNumber");
    PhoneLiteral();
  }
}

/**
 * The worked examples that accompany the diff (the tests at the end of
 * diff.rs), each stated for any values of the shape the example uses and
 * any starting path, with the exact operation list the comparison produces.
 */
module DiffExamples {
  import opened Wrappers
  import opened Paths
  import opened HashableValue
  import opened Diff
  import opened DiffProperties
  import opened DocLiterals
  import SerdeJson

  /** An object against `null`: the whole document is replaced by `null`. */
  lemma ReplaceAll(es: seq<(string, Value)>, path: string)
    ensures DiffOps(Object(es), Null, path) == [Replace(path, SerdeJson.Null)]
  {
    WholeReplace(Object(es), Null, path);
  }

  /** `null` against an object: the whole document is replaced by the object. */
  lemma AddAll(es: seq<(string, Value)>, path: string)
    ensures DiffOps(Null, Object(es), path) == [Replace(path, IntoSerde(Object(es)))]
    ensures IntoSerde(Object(es)).Object? && |IntoSerde(Object(es)).entries| == |es|
  {
    WholeReplace(Null, Object(es), path);
  }

  /** Emptying a two-element array removes position 0 twice. */
  lemma RemoveAll(a: Value, b: Value, path: string)
    ensures DiffOps(Array([a, b]), Array([]), path) == [Remove(path + "/0"), Remove(path + "/0")]
  {
    var xs := [a, b];
    assert !Equal(Array(xs), Array([]));
    ArrayAgainstArray(xs, [], path);
    assert TailRemoves(xs, [], path) == seq(2, _ => Remove(path + "/" + DecimalString(0)));
    TwoRemovesAtZero(path);
  }

  /** Cutting a three-element array to its first element removes position 1 twice. */
  lemma RemoveTail(a: Value, b: Value, c: Value, path: string)
    requires WellFormed(a)
    ensures DiffOps(Array([a, b, c]), Array([a]), path) == [Remove(path + "/1"), Remove(path + "/1")]
  {
    var xs, ys := [a, b, c], [a];
    assert !Equal(Array(xs), Array(ys));
    ArrayAgainstArray(xs, ys, path);
    SamePrefixIsSilent(xs, ys, path);
    assert TailRemoves(xs, ys, path) == seq(2, _ => Remove(path + "/" + DecimalString(1)));
    TwoRemovesAtOne(path);
  }

  lemma SamePrefixIsSilent(xs: seq<Value>, ys: seq<Value>, path: string)
    requires |xs| >= 1 && |ys| >= 1 && xs[0] == ys[0] && WellFormed(xs[0])
    ensures PositionwiseOps(xs, ys, path, 1) == []
  {
    IdentityEmitsNothing(xs[0], path + "/" + DecimalString(0));
    assert PositionwiseOps(xs, ys, path, 0) == [];
  }

  lemma TwoRemovesAtOne(path: string)
    ensures seq(2, _ => Remove(path + "/" + DecimalString(1))) == [Remove(path + "/1"), Remove(path + "/1")]
  {
    var removes := seq(2, _ => Remove(path + "/" + DecimalString(1)));
    assert DecimalString(1) == "1";
    assert |removes| == 2 && removes[0] == Remove(path + "/1") && removes[1] == Remove(path + "/1");
  }

  /**
   * A two-element array against a one-entry object: the entry is added, then
   * both elements are removed at position 0.
   */
  lemma ReplaceObject(a: Value, b: Value, key: string, v: Value, path: string)
    ensures DiffOps(Array([a, b]), Object([(key, v)]), path) ==
      [Add(path + "/" + Escape(key), IntoSerde(v)), Remove(path + "/0"), Remove(path + "/0")]
  {
    ArrayAgainstObject([a, b], [(key, v)], path);
    OneEntryAdds(key, v, path);
    TwoRemovesAtZero(path);
  }

  lemma OneEntryAdds(key: string, v: Value, path: string)
    ensures AddEntries([(key, v)], path) == [Add(path + "/" + Escape(key), IntoSerde(v))]
  {
    var adds := AddEntries([(key, v)], path);
    assert |adds| == 1 && adds[0] == Add(path + "/" + Escape(key), IntoSerde(v));
  }

  lemma TwoRemovesAtZero(path: string)
    ensures seq(2, _ => Remove(path + "/" + DecimalString(0))) == [Remove(path + "/0"), Remove(path + "/0")]
  {
    var removes := seq(2, _ => Remove(path + "/" + DecimalString(0)));
    assert DecimalString(0) == "0";
    assert |removes| == 2 && removes[0] == Remove(path + "/0") && removes[1] == Remove(path + "/0");
  }

  /**
   * The empty key is a segment of its own: when only its string value
   * changes, that value is replaced at the current path followed by "/".
   */
  lemma DiffEmptyKey(title: string, t: Value, x: string, y: string, path: string)
    requires title != "" && WellFormed(t) && x != y
    ensures DiffOps(Object([(title, t), ("", String(x))]), Object([(title, t), ("", String(y))]), path) ==
      [Replace(path + "/", SerdeJson.String(y))]
  {
    var es, fs := [(title, t), ("", String(x))], [(title, t), ("", String(y))];
    EmptyKeyUnequal(title, t, x, y);
    ObjectAgainstSameKeys(es, fs, path);
    EmptyKeyEntrywise(title, t, x, y, path);
  }

  lemma EmptyKeyUnequal(title: string, t: Value, x: string, y: string)
    requires title != "" && x != y
    ensures !Equal(Object([(title, t), ("", String(x))]), Object([(title, t), ("", String(y))]))
  {
    var es, fs := [(title, t), ("", String(x))], [(title, t), ("", String(y))];
    assert Get(fs, "") == Some(String(y)) by {
      assert fs[0].0 != "";
      assert fs[1..] == [("", String(y))];
    }
    assert !Equal(es[1].1, Get(fs, es[1].0).value);
  }

  lemma EmptyKeyEntrywise(title: string, t: Value, x: string, y: string, path: string)
    requires WellFormed(t) && x != y
    ensures EntrywiseOps([(title, t), ("", String(x))], [(title, t), ("", String(y))], path, 2) ==
      [Replace(path + "/", SerdeJson.String(y))]
  {
    var es, fs := [(title, t), ("", String(x))], [(title, t), ("", String(y))];
    assert EntrywiseOps(es, fs, path, 1) == [] by {
      assert EntrywiseOps(es, fs, path, 0) == [];
      IdentityEmitsNothing(t, path + "/" + Escape(title));
    }
    assert path + "/" + Escape(fs[1].0) == path + "/" by {
      assert Escape("") == "";
    }
    assert DiffOps(String(x), String(y), path + "/") == [Replace(path + "/", SerdeJson.String(y))];
  }

  /**
   * The same test with the empty key listed first, the order a map that
   * sorts its keys iterates them in; the patch is the same.
   */
  lemma DiffEmptyKeyFirst(title: string, t: Value, x: string, y: string, path: string)
    requires title != "" && WellFormed(t) && x != y
    ensures DiffOps(Object([("", String(x)), (title, t)]), Object([("", String(y)), (title, t)]), path) ==
      [Replace(path + "/", SerdeJson.String(y))]
  {
    var es, fs := [("", String(x)), (title, t)], [("", String(y)), (title, t)];
    EmptyKeyFirstUnequal(title, t, x, y);
    ObjectAgainstSameKeys(es, fs, path);
    EmptyKeyFirstEntrywise(title, t, x, y, path);
  }

  lemma EmptyKeyFirstUnequal(title: string, t: Value, x: string, y: string)
    requires x != y
    ensures !Equal(Object([("", String(x)), (title, t)]), Object([("", String(y)), (title, t)]))
  {
    var es, fs := [("", String(x)), (title, t)], [("", String(y)), (title, t)];
    assert Get(fs, "") == Some(String(y));
    assert !Equal(es[0].1, Get(fs, es[0].0).value);
  }

  lemma EmptyKeyFirstEntrywise(title: string, t: Value, x: string, y: string, path: string)
    requires WellFormed(t) && x != y
    ensures EntrywiseOps([("", String(x)), (title, t)], [("", String(y)), (title, t)], path, 2) ==
      [Replace(path + "/", SerdeJson.String(y))]
  {
    var es, fs := [("", String(x)), (title, t)], [("", String(y)), (title, t)];
    var replaced := [Replace(path + "/", SerdeJson.String(y))];
    assert EntrywiseOps(es, fs, path, 1) == replaced by {
      assert EntrywiseOps(es, fs, path, 0) == [];
      assert path + "/" + Escape(fs[0].0) == path + "/" by {
        assert Escape("") == "";
      }
      assert DiffOps(String(x), String(y), path + "/") == replaced;
      assert [] + replaced == replaced;
    }
    IdentityEmitsNothing(t, path + "/" + Escape(title));
    assert replaced + [] == replaced;
  }

  /**
   * Changing the value under any key, `/` and `~` included, replaces it under
   * the key's escaped form, which is a single segment and reads back as the
   * key.
   */
  lemma EscapeJsonKeys(key: string, x: Value, y: Value, path: string)
    requires IsScalar(x) && IsScalar(y) && !Equal(x, y)
    ensures DiffOps(Object([(key, x)]), Object([(key, y)]), path) == [Replace(path + "/" + Escape(key), IntoSerde(y))]
    ensures '/' !in Escape(key) && Unescape(Escape(key)) == Some(key)
  {
    var es, fs := [(key, x)], [(key, y)];
    assert !Equal(Object(es), Object(fs)) by {
      assert Get(fs, key) == Some(y);
    }
    ObjectAgainstSameKeys(es, fs, path);
    assert EntrywiseOps(es, fs, path, 1) == EntrywiseOps(es, fs, path, 0) + DiffOps(x, y, path + "/" + Escape(key));
    UnescapeEscape(key);
  }

  /*
   * The documentation example of `diff` (src/diff.rs:155-181), first for any
   * keys of its shape, then for its own keys. The entries are listed in the
   * sorted key order its expected patch assumes, and every text is free.
   */

  /** The seven keys of the example document. */
  datatype DocKeys = DocKeys(author: string, familyName: string, givenName: string,
                             content: string, phoneNumber: string, tags: string, title: string)

  /** The example's own keys. */
  const SourceKeys := DocKeys("author", "familyName", "givenName", "content", "phoneNumber", "tags", "title")

  /** The two author keys differ, and so do the five top-level keys. */
  predicate KeysDistinct(k: DocKeys) {
    k.familyName != k.givenName &&
    k.author != k.content && k.author != k.phoneNumber && k.author != k.tags && k.author != k.title &&
    k.content != k.phoneNumber && k.content != k.tags && k.content != k.title &&
    k.phoneNumber != k.tags && k.phoneNumber != k.title && k.tags != k.title
  }

  function DocLeftEntries(k: DocKeys, g: string, f: string, e: string, s: string, c: string, t1: string): seq<(string, Value)> {
    [(k.author, Object([(k.familyName, String(f)), (k.givenName, String(g))])),
     (k.content, String(c)),
     (k.tags, Array([String(e), String(s)])),
     (k.title, String(t1))]
  }

  function DocRightEntries(k: DocKeys, g: string, e: string, c: string, t2: string, p: string): seq<(string, Value)> {
    [(k.author, Object([(k.givenName, String(g))])),
     (k.content, String(c)),
     (k.phoneNumber, String(p)),
     (k.tags, Array([String(e)])),
     (k.title, String(t2))]
  }

  /**
   * The worked example: the family name and the second tag are removed, the
   * title is replaced and the phone number added, in that order.
   */
  lemma DocExample(g: string, f: string, e: string, s: string, c: string, t1: string, t2: string, p: string)
    requires t1 != t2
    ensures DiffOps(Object(DocLeftEntries(SourceKeys, g, f, e, s, c, t1)),
                    Object(DocRightEntries(SourceKeys, g, e, c, t2, p)), "") ==
      [Remove("/author/familyName"), Remove("/tags/1"), Replace("/title", SerdeJson.String(t2)),
       Add("/phoneNumber", SerdeJson.String(p))]
  {
    SourceKeysDistinct();
    DocShape(SourceKeys, g, f, e, s, c, t1, t2, p, "");
    AuthorPath();
    TagsPath();
    TitlePath();
    PhonePath();
  }

  lemma SourceKeysDistinct()
    ensures KeysDistinct(SourceKeys)
  {
  }

  /** The example for any distinct keys and any starting path: the same four operations, under the escaped keys. */
  lemma DocShape(k: DocKeys, g: string, f: string, e: string, s: string, c: string, t1: string, t2: string, p: string, path: string)
    requires KeysDistinct(k) && t1 != t2
    ensures DiffOps(Object(DocLeftEntries(k, g, f, e, s, c, t1)), Object(DocRightEntries(k, g, e, c, t2, p)), path) ==
      [Remove(path + "/" + Escape(k.author) + "/" + Escape(k.familyName)), Remove(path + "/" + Escape(k.tags) + "/1"),
       Replace(path + "/" + Escape(k.title), SerdeJson.String(t2)), Add(path + "/" + Escape(k.phoneNumber), SerdeJson.String(p))]
  {
    var l, r := Object(DocLeftEntries(k, g, f, e, s, c, t1)), Object(DocRightEntries(k, g, e, c, t2, p));
    assert !Equal(l, r);
    DiffOpsOfContainers(l, r, path);
    DocRightItemsAre(k, g, e, c, t2, p);
    DocMatched(k, g, f, e, s, c, t1, t2, p, path);
    DocAdded(k, g, f, e, s, c, t1, t2, p, path);
    DocRemoved(k, g, f, e, s, c, t1, t2, p, path);
    var matched := [Remove(path + "/" + Escape(k.author) + "/" + Escape(k.familyName)), Remove(path + "/" + Escape(k.tags) + "/1"),
                    Replace(path + "/" + Escape(k.title), SerdeJson.String(t2))];
    assert matched + [Add(path + "/" + Escape(k.phoneNumber), SerdeJson.String(p))] + [] ==
      matched + [Add(path + "/" + Escape(k.phoneNumber), SerdeJson.String(p))];
  }

  /** The right-hand document's items, as the passes see them. */
  function DocRightItems(k: DocKeys, g: string, e: string, c: string, t2: string, p: string): seq<(Key, Value)> {
    [(Name(k.author), Object([(k.givenName, String(g))])),
     (Name(k.content), String(c)),
     (Name(k.phoneNumber), String(p)),
     (Name(k.tags), Array([String(e)])),
     (Name(k.title), String(t2))]
  }

  lemma DocRightItemsAre(k: DocKeys, g: string, e: string, c: string, t2: string, p: string)
    ensures ValueItems(Object(DocRightEntries(k, g, e, c, t2, p))).value == DocRightItems(k, g, e, c, t2, p)
  {
    var items, fs := ValueItems(Object(DocRightEntries(k, g, e, c, t2, p))).value, DocRightEntries(k, g, e, c, t2, p);
    assert |items| == |fs| == 5;
    forall i | 0 <= i < 5 ensures items[i] == DocRightItems(k, g, e, c, t2, p)[i] {
      assert items[i] == (Name(fs[i].0), fs[i].1);
    }
  }

  /** An object entry is found where its key sits, when no other entry has that key. */
  lemma FindNamed(es: seq<(string, Value)>, i: nat, key: string)
    requires i < |es| && es[i].0 == key
    requires forall j :: 0 <= j < |es| && j != i ==> es[j].0 != key
    ensures Find(ValueItems(Object(es)).value, Name(key)) == Some(i)
  {
    var items := ValueItems(Object(es)).value;
    assert items[i].0 == Name(key);
  }

  /** A key no entry has is not found. */
  lemma FindMissing(es: seq<(string, Value)>, key: string)
    requires forall j :: 0 <= j < |es| ==> es[j].0 != key
    ensures Find(ValueItems(Object(es)).value, Name(key)) == None
  {
  }

  /** In the first pass, a right-hand entry whose key one left entry alone has is compared with that entry. */
  lemma NamedEntry(es: seq<(string, Value)>, i: nat, key: string, lv: Value, v: Value, path: string)
    requires i < |es| && es[i] == (key, lv)
    requires forall j :: 0 <= j < |es| && j != i ==> es[j].0 != key
    ensures MatchedEntry(Object(es), (Name(key), v), path) == DiffOps(lv, v, path + "/" + Escape(key))
  {
    FindNamed(es, i, key);
    assert ValueItems(Object(es)).value[i].1 == lv;
  }

  /** In the first pass, a right-hand entry whose key the left side lacks emits nothing. */
  lemma UnnamedEntry(es: seq<(string, Value)>, key: string, v: Value, path: string)
    requires forall j :: 0 <= j < |es| ==> es[j].0 != key
    ensures MatchedEntry(Object(es), (Name(key), v), path) == []
  {
    FindMissing(es, key);
  }

  /** The first pass over five right-hand entries, from what each entry emits. */
  lemma MatchedOpsOfFive(l: Value, rs: seq<(Key, Value)>, path: string)
    requires !IsScalar(l) && |rs| == 5
    ensures MatchedOps(l, rs, path) ==
      MatchedEntry(l, rs[0], path) + MatchedEntry(l, rs[1], path) + MatchedEntry(l, rs[2], path) + MatchedEntry(l, rs[3], path) + MatchedEntry(l, rs[4], path)
  {
    var o0, o1, o2, o3, o4 := MatchedEntry(l, rs[0], path), MatchedEntry(l, rs[1], path), MatchedEntry(l, rs[2], path), MatchedEntry(l, rs[3], path), MatchedEntry(l, rs[4], path);
    assert rs[..0] == [];
    assert MatchedOps(l, rs[..1], path) == o0 by {
      MatchedOpsStep(l, rs, 0, path);
    }
    assert MatchedOps(l, rs[..2], path) == o0 + o1 by {
      MatchedOpsStep(l, rs, 1, path);
    }
    assert MatchedOps(l, rs[..3], path) == o0 + o1 + o2 by {
      MatchedOpsStep(l, rs, 2, path);
    }
    assert MatchedOps(l, rs[..4], path) == o0 + o1 + o2 + o3 by {
      MatchedOpsStep(l, rs, 3, path);
    }
    assert MatchedOps(l, rs[..5], path) == o0 + o1 + o2 + o3 + o4 by {
      MatchedOpsStep(l, rs, 4, path);
    }
    assert rs[..5] == rs;
  }


  /** The first pass over the example, one right-hand entry at a time. */
  lemma DocMatched(k: DocKeys, g: string, f: string, e: string, s: string, c: string, t1: string, t2: string, p: string, path: string)
    requires KeysDistinct(k) && t1 != t2
    ensures MatchedOps(Object(DocLeftEntries(k, g, f, e, s, c, t1)), DocRightItems(k, g, e, c, t2, p), path) ==
      [Remove(path + "/" + Escape(k.author) + "/" + Escape(k.familyName)), Remove(path + "/" + Escape(k.tags) + "/1"),
       Replace(path + "/" + Escape(k.title), SerdeJson.String(t2))]
  {
    var l := Object(DocLeftEntries(k, g, f, e, s, c, t1));
    var r0, r1, r2 := (Name(k.author), Object([(k.givenName, String(g))])), (Name(k.content), String(c)), (Name(k.phoneNumber), String(p));
    var r3, r4 := (Name(k.tags), Array([String(e)])), (Name(k.title), String(t2));
    assert DocRightItems(k, g, e, c, t2, p) == [r0, r1, r2, r3, r4];
    MatchedOpsOfFive(l, DocRightItems(k, g, e, c, t2, p), path);
    DocAuthorEntry(k, g, f, e, s, c, t1, path);
    DocContentEntry(k, g, f, e, s, c, t1, path);
    DocPhoneEntry(k, g, f, e, s, c, t1, p, path);
    DocTagsEntry(k, g, f, e, s, c, t1, path);
    DocTitleEntry(k, g, f, e, s, c, t1, t2, path);
    ThreeOfFive(MatchedEntry(l, r0, path), MatchedEntry(l, r1, path), MatchedEntry(l, r2, path), MatchedEntry(l, r3, path),
                MatchedEntry(l, r4, path), Remove(path + "/" + Escape(k.author) + "/" + Escape(k.familyName)),
                Remove(path + "/" + Escape(k.tags) + "/1"), Replace(path + "/" + Escape(k.title), SerdeJson.String(t2)));
  }

  lemma ThreeOfFive<T>(o0: seq<T>, o1: seq<T>, o2: seq<T>, o3: seq<T>, o4: seq<T>, a: T, b: T, c: T)
    requires o0 == [a] && o1 == [] && o2 == [] && o3 == [b] && o4 == [c]
    ensures o0 + o1 + o2 + o3 + o4 == [a, b, c]
  {
  }

  lemma ThirdOfFive<T>(o0: seq<T>, o1: seq<T>, o2: seq<T>, o3: seq<T>, o4: seq<T>, a: T)
    requires o0 == [] && o1 == [] && o2 == [a] && o3 == [] && o4 == []
    ensures o0 + o1 + o2 + o3 + o4 == [a]
  {
  }

  lemma DocAuthorEntry(k: DocKeys, g: string, f: string, e: string, s: string, c: string, t1: string, path: string)
    requires KeysDistinct(k)
    ensures MatchedEntry(Object(DocLeftEntries(k, g, f, e, s, c, t1)), (Name(k.author), Object([(k.givenName, String(g))])), path) ==
      [Remove(path + "/" + Escape(k.author) + "/" + Escape(k.familyName))]
  {
    NamedEntry(DocLeftEntries(k, g, f, e, s, c, t1), 0, k.author, Object([(k.familyName, String(f)), (k.givenName, String(g))]),
               Object([(k.givenName, String(g))]), path);
    AuthorDiff(k.familyName, k.givenName, g, f, path + "/" + Escape(k.author));
  }

  lemma DocContentEntry(k: DocKeys, g: string, f: string, e: string, s: string, c: string, t1: string, path: string)
    requires KeysDistinct(k)
    ensures MatchedEntry(Object(DocLeftEntries(k, g, f, e, s, c, t1)), (Name(k.content), String(c)), path) == []
  {
    NamedEntry(DocLeftEntries(k, g, f, e, s, c, t1), 1, k.content, String(c), String(c), path);
    IdentityEmitsNothing(String(c), path + "/" + Escape(k.content));
  }

  lemma DocPhoneEntry(k: DocKeys, g: string, f: string, e: string, s: string, c: string, t1: string, p: string, path: string)
    requires KeysDistinct(k)
    ensures MatchedEntry(Object(DocLeftEntries(k, g, f, e, s, c, t1)), (Name(k.phoneNumber), String(p)), path) == []
  {
    var es := DocLeftEntries(k, g, f, e, s, c, t1);
    forall j | 0 <= j < |es| ensures es[j].0 != k.phoneNumber {
      assert es[j].0 in {k.author, k.content, k.tags, k.title};
    }
    UnnamedEntry(es, k.phoneNumber, String(p), path);
  }

  lemma DocTagsEntry(k: DocKeys, g: string, f: string, e: string, s: string, c: string, t1: string, path: string)
    requires KeysDistinct(k)
    ensures MatchedEntry(Object(DocLeftEntries(k, g, f, e, s, c, t1)), (Name(k.tags), Array([String(e)])), path) ==
      [Remove(path + "/" + Escape(k.tags) + "/1")]
  {
    NamedEntry(DocLeftEntries(k, g, f, e, s, c, t1), 2, k.tags, Array([String(e), String(s)]), Array([String(e)]), path);
    TagsDiff(e, s, path + "/" + Escape(k.tags));
  }

  lemma DocTitleEntry(k: DocKeys, g: string, f: string, e: string, s: string, c: string, t1: string, t2: string, path: string)
    requires KeysDistinct(k) && t1 != t2
    ensures MatchedEntry(Object(DocLeftEntries(k, g, f, e, s, c, t1)), (Name(k.title), String(t2)), path) ==
      [Replace(path + "/" + Escape(k.title), SerdeJson.String(t2))]
  {
    NamedEntry(DocLeftEntries(k, g, f, e, s, c, t1), 3, k.title, String(t1), String(t2), path);
    assert DiffOps(String(t1), String(t2), path + "/" + Escape(k.title)) == [Replace(path + "/" + Escape(k.title), SerdeJson.String(t2))];
  }

  /** The author objects: the family name is removed and the given name stays. */
  lemma AuthorDiff(family: string, given: string, g: string, f: string, path: string)
    requires family != given
    ensures DiffOps(Object([(family, String(f)), (given, String(g))]), Object([(given, String(g))]), path) ==
      [Remove(path + "/" + Escape(family))]
  {
    var es, fs := [(family, String(f)), (given, String(g))], [(given, String(g))];
    var l, r := Object(es), Object(fs);
    var ml, mr := ValueItems(l).value, ValueItems(r).value;
    assert !Equal(l, r);
    DiffOpsOfContainers(l, r, path);
    assert MatchedOps(l, mr, path) == [] by {
      assert mr[0] == (Name(given), String(g));
      NamedEntry(es, 1, given, String(g), String(g), path);
      IdentityEmitsNothing(String(g), path + "/" + Escape(given));
      assert mr[..0] == [];
      MatchedOpsStep(l, mr, 0, path);
      assert mr[..1] == mr;
    }
    assert AddedOps(ml, mr, path) == [] by {
      FindNamed(es, 1, given);
      assert mr[..0] == [];
    }
    assert RemovedOps(ml, mr, path) == [Remove(path + "/" + Escape(family))] by {
      assert ml[0] == (Name(family), String(f)) && ml[1] == (Name(given), String(g));
      FindMissing(fs, family);
      FindNamed(fs, 0, given);
      assert ml[..1][..0] == [];
      assert RemovedOps(ml[..1], mr, path) == [Remove(path + "/" + Escape(family))];
      assert ml[..2] == ml;
    }
  }

  /** The tag arrays: the second tag is removed at position 1. */
  lemma TagsDiff(e: string, s: string, path: string)
    ensures DiffOps(Array([String(e), String(s)]), Array([String(e)]), path) == [Remove(path + "/1")]
  {
    var xs, ys := [String(e), String(s)], [String(e)];
    assert !Equal(Array(xs), Array(ys));
    ArrayAgainstArray(xs, ys, path);
    SamePrefixIsSilent(xs, ys, path);
    assert TailRemoves(xs, ys, path) == seq(1, _ => Remove(path + "/" + DecimalString(1)));
    OneRemoveAtOne(path);
  }

  lemma OneRemoveAtOne(path: string)
    ensures seq(1, _ => Remove(path + "/" + DecimalString(1))) == [Remove(path + "/1")]
  {
    var removes := seq(1, _ => Remove(path + "/" + DecimalString(1)));
    assert DecimalString(1) == "1";
    assert |removes| == 1 && removes[0] == Remove(path + "/1");
  }

  /** One more right-hand entry in the second pass appends its own operations. */
  lemma AddedOpsStep(left: seq<(Key, Value)>, right: seq<(Key, Value)>, i: nat, path: string)
    requires i < |right|
    ensures AddedOps(left, right[..i + 1], path) == AddedOps(left, right[..i], path) + AddedEntry(left, right[i], path)
  {
    assert right[..i + 1][..i] == right[..i];
  }

  /** The second pass over five right-hand entries, from what each entry emits. */
  lemma AddedOpsOfFive(left: seq<(Key, Value)>, rs: seq<(Key, Value)>, path: string)
    requires |rs| == 5
    ensures AddedOps(left, rs, path) ==
      AddedEntry(left, rs[0], path) + AddedEntry(left, rs[1], path) + AddedEntry(left, rs[2], path) + AddedEntry(left, rs[3], path) + AddedEntry(left, rs[4], path)
  {
    var o0, o1, o2, o3, o4 := AddedEntry(left, rs[0], path), AddedEntry(left, rs[1], path), AddedEntry(left, rs[2], path), AddedEntry(left, rs[3], path), AddedEntry(left, rs[4], path);
    assert rs[..0] == [];
    assert AddedOps(left, rs[..1], path) == o0 by {
      AddedOpsStep(left, rs, 0, path);
    }
    assert AddedOps(left, rs[..2], path) == o0 + o1 by {
      AddedOpsStep(left, rs, 1, path);
    }
    assert AddedOps(left, rs[..3], path) == o0 + o1 + o2 by {
      AddedOpsStep(left, rs, 2, path);
    }
    assert AddedOps(left, rs[..4], path) == o0 + o1 + o2 + o3 by {
      AddedOpsStep(left, rs, 3, path);
    }
    assert AddedOps(left, rs[..5], path) == o0 + o1 + o2 + o3 + o4 by {
      AddedOpsStep(left, rs, 4, path);
    }
    assert rs[..5] == rs;
  }


  /** The second pass over the example: only the phone number is new. */
  lemma DocAdded(k: DocKeys, g: string, f: string, e: string, s: string, c: string, t1: string, t2: string, p: string, path: string)
    requires KeysDistinct(k)
    ensures AddedOps(ValueItems(Object(DocLeftEntries(k, g, f, e, s, c, t1))).value, DocRightItems(k, g, e, c, t2, p), path) ==
      [Add(path + "/" + Escape(k.phoneNumber), SerdeJson.String(p))]
  {
    var ml := ValueItems(Object(DocLeftEntries(k, g, f, e, s, c, t1))).value;
    var r0, r1, r2 := (Name(k.author), Object([(k.givenName, String(g))])), (Name(k.content), String(c)), (Name(k.phoneNumber), String(p));
    var r3, r4 := (Name(k.tags), Array([String(e)])), (Name(k.title), String(t2));
    assert DocRightItems(k, g, e, c, t2, p) == [r0, r1, r2, r3, r4];
    AddedOpsOfFive(ml, DocRightItems(k, g, e, c, t2, p), path);
    DocKeptKeys(k, g, f, e, s, c, t1, r0.1, r1.1, r3.1, r4.1, path);
    DocNewKey(k, g, f, e, s, c, t1, p, path);
    ThirdOfFive(AddedEntry(ml, r0, path), AddedEntry(ml, r1, path), AddedEntry(ml, r2, path), AddedEntry(ml, r3, path),
                AddedEntry(ml, r4, path), Add(path + "/" + Escape(k.phoneNumber), SerdeJson.String(p)));
  }

  /** The four keys both sides have add nothing in the second pass. */
  lemma DocKeptKeys(k: DocKeys, g: string, f: string, e: string, s: string, c: string, t1: string,
                    va: Value, vc: Value, vt: Value, vi: Value, path: string)
    requires KeysDistinct(k)
    ensures AddedEntry(ValueItems(Object(DocLeftEntries(k, g, f, e, s, c, t1))).value, (Name(k.author), va), path) == []
    ensures AddedEntry(ValueItems(Object(DocLeftEntries(k, g, f, e, s, c, t1))).value, (Name(k.content), vc), path) == []
    ensures AddedEntry(ValueItems(Object(DocLeftEntries(k, g, f, e, s, c, t1))).value, (Name(k.tags), vt), path) == []
    ensures AddedEntry(ValueItems(Object(DocLeftEntries(k, g, f, e, s, c, t1))).value, (Name(k.title), vi), path) == []
  {
    var es := DocLeftEntries(k, g, f, e, s, c, t1);
    FindNamed(es, 0, k.author);
    FindNamed(es, 1, k.content);
    FindNamed(es, 2, k.tags);
    FindNamed(es, 3, k.title);
  }

  /** The phone number, which only the right side has, is added. */
  lemma DocNewKey(k: DocKeys, g: string, f: string, e: string, s: string, c: string, t1: string, p: string, path: string)
    requires KeysDistinct(k)
    ensures AddedEntry(ValueItems(Object(DocLeftEntries(k, g, f, e, s, c, t1))).value, (Name(k.phoneNumber), String(p)), path) ==
      [Add(path + "/" + Escape(k.phoneNumber), SerdeJson.String(p))]
  {
    var es := DocLeftEntries(k, g, f, e, s, c, t1);
    forall j | 0 <= j < |es| ensures es[j].0 != k.phoneNumber {
      assert es[j].0 in {k.author, k.content, k.tags, k.title};
    }
    FindMissing(es, k.phoneNumber);
  }

  /** The third pass over the example: every left key is still on the right. */
  lemma DocRemoved(k: DocKeys, g: string, f: string, e: string, s: string, c: string, t1: string, t2: string, p: string, path: string)
    requires KeysDistinct(k)
    ensures RemovedOps(ValueItems(Object(DocLeftEntries(k, g, f, e, s, c, t1))).value, DocRightItems(k, g, e, c, t2, p), path) == []
  {
    var es, mr := DocLeftEntries(k, g, f, e, s, c, t1), DocRightItems(k, g, e, c, t2, p);
    var ml := ValueItems(Object(es)).value;
    forall j | 0 <= j < |ml| ensures Find(mr, ml[j].0).Some? {
      assert ml[j].0 == Name(es[j].0);
      var at := if j == 0 then 0 else if j == 1 then 1 else j + 1;
      assert mr[at].0 == ml[j].0;
    }
    RemovedOpsNoneGone(ml, mr, path);
  }
}
