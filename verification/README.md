# json-patch diff, modelled in Dafny

A model of the diff generator in formbird/json-patch. It compares two JSON
documents and produces an RFC 6902 (JSON Patch) script of `add`, `remove`
and `replace` operations. Each operation's path is an RFC 6901 JSON Pointer,
with keys escaped as section 3 of RFC 6901 prescribes.

The model has these modules:

- `SerdeJson` (`serde_json.dfy`) is the external JSON document. `Number` is an opaque token, and an object is its list of entries in iteration order.
- `HashableValue` (`hashable_value.dfy`) models `src/hashable_value.rs`:
  - the `Value` sum type;
  - its derived equality `Equal`, where objects are compared as `IndexMap`s, so entry order does not matter;
  - the conversions `FromSerde` / `IntoSerde`;
  - `impl Hash`, as the stream of writes it makes (`Hash`).
- `Paths` (`paths.dfy`) holds the string side of `src/diff.rs`:
  - `append_path`, as the loop method `AppendPath`, proved to append `Escape(key)`;
  - RFC 6901 unescaping, as the inverse `Unescape`;
  - decimal index rendering;
  - the `rfind('/')` position that `pop` cuts at.
- `Diff` (`diff.dfy`) holds the rest of `src/diff.rs`:
  - `Key` and `value_items`;
  - the `PatchDiffer` class, whose `path`, `patch` and `shift` fields its methods update in place;
  - the recursive method `TDiff` with its three loops (`MatchedPass`, `AddedPass`, `RemovedPass`);
  - the entry point `Diff`.

  `TDiff` is proved to append exactly `DiffOps(l, r, path)` to the patch and to leave the path as it found it. `DiffOps` is the same comparison written as a pure function.
- `DiffProperties` (`diff_properties.dfy`) proves facts about `DiffOps`:
  - where operations land;
  - when a whole value is replaced;
  - the exact scripts for two arrays, for an array against an object (both ways), and for two objects with the same keys.
- `DiffExamples` (`diff_examples.dfy`) restates the unit tests of `src/diff.rs`. Each test becomes a lemma over any values of the test's shape, at any starting path.

Three behaviours of the code worth knowing:

- An array compared with an object is not replaced. The code adds the object's entries, then removes the array's elements (see `ArrayAgainstObject`). `[]` against `{}` therefore emits nothing (see `EmptyArrayAgainstEmptyObject`).
- `std::hash::Hash` documents that `k1 == k2` must imply equal hashes. The code hashes object entries in iteration order, while equality ignores that order (see `HashSeesEntryOrder`).
- The order of operations follows each side's entry order as the JSON representation presents it. The expected outputs in the documentation example at `src/diff.rs:144-188` assume a representation that iterates keys in sorted order (serde_json's default map). The model takes whatever order the entries are listed in. `DocExample` lists the example's entries in sorted order and proves exactly that expected patch.

## Model

| member | source | states |
|---|---|---|
| HashableValue.FromSerde | src/hashable_value.rs:52-61 | each JSON variant maps to the same-named `Value` variant, with the same payload, array length and order, and object keys and key order; objects with distinct keys stay that way |
| HashableValue.IntoSerde | src/hashable_value.rs:63-72 | the mirror-image conversion, with the same guarantees |
| HashableValue.IntoFromSerde | src/hashable_value.rs:52-72 | converting a document to a `Value` and back gives the document itself |
| HashableValue.FromIntoSerde | src/hashable_value.rs:52-72 | converting a `Value` to a document and back gives the value itself |
| HashableValue.Get | src/hashable_value.rs:16 | `IndexMap::get` on the object's entries: nothing is found exactly when no entry has the key |
| HashableValue.Equal | src/hashable_value.rs:8-17 | the derived equality: equal values have the same variant, and equal objects have the same number of entries; scalar payloads must agree, arrays compare element by element, and objects compare by looking up every left entry on the right, so entry order does not matter |
| HashableValue.EqualReflexive | src/hashable_value.rs:8-17 | every value whose objects have distinct keys equals itself under the derived equality |
| HashableValue.EqualIgnoresEntryOrder | src/hashable_value.rs:8-17 | two objects whose entries are permutations of each other compare equal, though they are different sequences |
| HashableValue.Hash | src/hashable_value.rs:19-48 | every variant's stream starts with a one-byte tag |
| HashableValue.HashTagsDistinct | src/hashable_value.rs:21-40 | the tag is 0 for Null, 1 for Bool, 2 for Number, 3 for String, 4 for Array and 5 for Object; two streams start alike exactly when the variants agree |
| HashableValue.NullHash | src/hashable_value.rs:22 | a stream is exactly the single tag 0 if and only if the value is Null |
| HashableValue.ObjectHashAppend | src/hashable_value.rs:39-45 | an object's stream is tag 5, then each entry's key and value in iteration order; one more entry only extends the stream, because no count is written |
| HashableValue.OneEntryHash | src/hashable_value.rs:39-45 | a one-entry object writes tag 5, the key, then the value's stream |
| HashableValue.TwoEntryHash | src/hashable_value.rs:39-45 | a two-entry object writes tag 5, then each key and value in entry order |
| HashableValue.HashSeesEntryOrder | src/hashable_value.rs:39-45 | two objects that are equal but list their entries in a different order write different streams |
| HashableValue.HashPrefixCollision | src/hashable_value.rs:39-45 | as written, `{k: {k2: v}}` and `{k: {}, k2: v}` are unequal yet write the same stream |
| HashableValue.CountedHash | src/hashable_value.rs:19-48 | the corrected hash, which writes an object's entry count after its tag; every stream starts with its tag |
| HashableValue.CountedHashPrefixFree | src/hashable_value.rs:19-48 | two corrected streams, each followed by anything, agree only if the values and the continuations are identical |
| HashableValue.CountedHashSeparatesUnequal | src/hashable_value.rs:19-48 | under the corrected hash, unequal values write different streams |
| Paths.AppendPath | src/diff.rs:131-142 | appends the escaped key to the path: `~` becomes `~0`, `/` becomes `~1`, and every other character is copied |
| Paths.Escape | src/diff.rs:131-142 | an escaped key contains no `/` and is at least as long as the key |
| Paths.EscapePlain | src/diff.rs:138-140 | a key with neither `~` nor `/` is its own segment |
| Paths.UnescapeEscape | src/diff.rs:131-142 | section 4 of RFC 6901 unescaping recovers the key from its escaped form |
| Paths.EscapeInjective | src/diff.rs:131-142 | distinct keys give distinct segments |
| Paths.DecimalString | src/diff.rs:82 | an index is written as a non-empty string of decimal digits with no leading zero; it starts with `0` exactly when the index is zero |
| Paths.ParseDecimalString | src/diff.rs:82 | reading the written digits back gives the index |
| Paths.LastSlash | src/diff.rs:88 | `rfind('/')` is none exactly when the path has no `/`; otherwise it is a `/` with none after it |
| Paths.PopPosition | src/diff.rs:88 | the cut position is never past the end of the path |
| Paths.PopAfterPush | src/diff.rs:78-91 | after `/` and a segment without `/` are appended, `pop` cuts exactly back to the previous path |
| Diff.ValueItems | src/diff.rs:12-25 | scalars have no items; an array's items are `(Index(i), a[i])` in position order; an object's are `(Name(k), v)` in entry order |
| Diff.ItemsWellFormed | src/diff.rs:55-58 | the items of a well-formed container have distinct keys, so extending an empty `IndexMap` with them keeps them all, in order |
| Diff.Find | src/diff.rs:59-71 | `contains_key` / `get`: a found position holds the key, and nothing is found exactly when no item has the key |
| Diff.Segment | src/diff.rs:78-85 | the segment for a key (index less shift, or escaped name) never contains `/` |
| Diff.RemovedShift | src/diff.rs:101-104 | the shift after part of the removal pass is at most the number of keys the pass has gone through |
| Diff.PatchDiffer.constructor | src/diff.rs:34-40 | a fresh context is at the root, with an empty patch and shift 0 |
| Diff.PatchDiffer.Push | src/diff.rs:78-85 | the path gains `/` and the key's segment, with `idx - shift` never underflowing; patch and shift are unchanged |
| Diff.PatchDiffer.Pop | src/diff.rs:87-91 | the path is cut at its last `/` (or emptied), the shift is reset to 0, and the patch is unchanged |
| Diff.PatchDiffer.Removed | src/diff.rs:93-106 | one `Remove` at the pushed path is appended; the path is restored; the shift grows by one only for an index key |
| Diff.PatchDiffer.Added | src/diff.rs:108-118 | one `Add` of the value at the pushed path is appended; path and shift are restored |
| Diff.PatchDiffer.Modified | src/diff.rs:120-127 | one `Replace` of the right value at the current path is appended; path and shift are unchanged |
| Diff.TDiff | src/diff.rs:43-74 | starting with shift 0, the walk appends exactly `DiffOps(l, r, path)` and returns the path as it found it; the shift is left at the number of index keys removed after two unequal containers, and at 0 otherwise |
| Diff.DiffContainers | src/diff.rs:54-72 | for two unequal containers, the matched, added and removed passes append their operations in that order, and the shift ends at the number of index keys removed |
| Diff.MatchedPass | src/diff.rs:59-65 | for each right key the left side has, in right order, push, recurse, pop; the path is restored and the shift is 0 |
| Diff.AddedPass | src/diff.rs:66-68 | one `Add` per right key the left side lacks, in right order, with shift 0 |
| Diff.RemovedPass | src/diff.rs:69-71 | one `Remove` per left key the right side lacks, in left order; the final shift counts the index keys removed |
| Diff.Diff | src/diff.rs:189-195 | the patch is the comparison of the two converted documents from the root path ""; a document compared with itself gives the empty patch |
| Diff.IdentityEmitsNothing | src/diff.rs:44-50 | comparing a value with itself emits nothing, at any path |
| Diff.EqualSameShape | src/diff.rs:44-53 | equal values are both scalars or both containers, of the same kind |
| DiffProperties.DiffOpsStayBelow | src/diff.rs:43-74 | every operation's path is the current path or lies below it; when both sides are containers, every path lies strictly below it |
| DiffProperties.WholeReplace | src/diff.rs:44-52 | the output is the single `Replace` of the whole right value at the current path if and only if the values differ and at least one is a scalar |
| DiffProperties.FindPosition | src/diff.rs:17-19 | position `i` is among an array's items exactly when `i` is below the length, and it is found at `i` |
| DiffProperties.FindAcrossKinds | src/diff.rs:17-22 | an index key is never an object's key, and a name key is never an array's |
| DiffProperties.RemovedOpsFrom | src/diff.rs:69-71 | when the right side keeps the first `n` positions of an array and drops the rest, every removal is at position `n`, and the shift ends at the number removed |
| DiffProperties.AddedOpsFrom | src/diff.rs:66-68 | when the left side has the first `n` positions, each later right element is added at its own position, in order |
| DiffProperties.ArrayAddedFrom | src/diff.rs:66-68 | from a shorter array to a longer one, the second pass adds exactly the elements past the shorter length, each at its own position |
| DiffProperties.MatchedOpsOfArrays | src/diff.rs:59-65 | for two arrays, the first pass compares element `i` with element `i` at `/i`, for every position both have, in order |
| DiffProperties.PositionEntry | src/diff.rs:59-65 | the first pass compares right element `i` with left element `i` at `/i` when the left array has one, and emits nothing otherwise |
| DiffProperties.AddedOpsOfArrays | src/diff.rs:66-68 | for two arrays, the second pass adds the right side's extra elements at their own positions |
| DiffProperties.RemovedOpsOfArrays | src/diff.rs:69-71 | for two arrays, the third pass removes the left side's extra elements, all at the right side's length |
| DiffProperties.ArrayAgainstArray | src/diff.rs:54-71 | two unequal arrays give the position-wise comparisons, then adds of the right side's tail, then `len(l) - len(r)` removes at `/len(r)` |
| DiffProperties.MatchedOpsNoneShared | src/diff.rs:59-65 | when no right key is on the left, the first pass emits nothing |
| DiffProperties.AddedOpsAllNew | src/diff.rs:66-68 | when no right key is on the left, there is one `Add` per right entry, in right order |
| DiffProperties.RemovedOpsAllNamed | src/diff.rs:69-71 | when no left name is on the right, there is one `Remove` per left entry under its escaped key, in left order |
| DiffProperties.NoKeyShared | src/diff.rs:17-22 | an array and an object share no key, looked up either way |
| DiffProperties.ArrayObjectPasses | src/diff.rs:59-71 | an array against an object: no matched operations, an add per object entry, and a remove at `/0` per element |
| DiffProperties.ObjectArrayPasses | src/diff.rs:59-71 | an object against an array: no matched operations, an add per element at its position, and a remove per entry |
| DiffProperties.ObjectArrayAdds | src/diff.rs:66-68 | an object against an array: the second pass adds every element at its own position |
| DiffProperties.ObjectArrayRemoves | src/diff.rs:69-71 | an object against an array: the third pass removes every entry under its escaped key, in entry order |
| DiffProperties.ArrayAgainstObject | src/diff.rs:54-71 | an array against an object emits the object's entries as adds, then one remove at `/0` per element, and no replace |
| DiffProperties.ObjectAgainstArray | src/diff.rs:54-71 | an object against an array emits the elements as adds at their positions, then one remove per entry, and no replace |
| DiffProperties.EmptyArrayAgainstEmptyObject | src/diff.rs:50-71 | `[]` and `{}` are unequal, yet comparing them either way emits nothing |
| DiffProperties.FindOwnKey | src/diff.rs:59-61 | in an object with distinct keys, entry `i`'s key is found at `i` |
| DiffProperties.MatchedOpsOfSameKeys | src/diff.rs:59-65 | for two objects with the same keys in the same order, the first pass compares entry `i` with entry `i` under the escaped key |
| DiffProperties.SameKeysEntry | src/diff.rs:59-65 | with the same keys in the same order, the first pass compares right entry `i` with left entry `i` under the escaped key |
| DiffProperties.SameKeysAddNothing | src/diff.rs:66-68 | with the same keys in the same order, the second pass adds nothing |
| DiffProperties.SameKeysRemoveNothing | src/diff.rs:69-71 | with the same keys in the same order, the third pass removes nothing |
| DiffProperties.AddedOpsNoneNew | src/diff.rs:66-68 | when every right key is on the left, nothing is added |
| DiffProperties.RemovedOpsNoneGone | src/diff.rs:69-71 | when every left key is on the right, nothing is removed |
| DiffProperties.ObjectAgainstSameKeys | src/diff.rs:54-71 | two unequal objects with the same keys give the entry-wise comparisons only, in order |
| DiffExamples.ReplaceAll | src/diff.rs:201-214 | any object against `null` is one `Replace` of the whole document by `null` |
| DiffExamples.DiffEmptyKey | src/diff.rs:216-231 | when only the string under the empty key changes, it is replaced at the path followed by `/` alone |
| DiffExamples.DiffEmptyKeyFirst | src/diff.rs:216-231 | the same test with the empty key listed first, as a sorted map iterates it, gives the same single `Replace` at the path followed by `/` |
| DiffExamples.DocExample | src/diff.rs:155-181 | the documentation example, with its keys listed in sorted order and any texts (the two titles differing): the patch is exactly remove `/author/familyName`, remove `/tags/1`, replace `/title` with the new title, add `/phoneNumber` with the phone number, in that order |
| DiffExamples.DocShape | src/diff.rs:155-181 | the same example for any distinct keys and any starting path: the same four operations, at the escaped keys |
| DiffExamples.AuthorDiff | src/diff.rs:155-181 | the `author` objects of the example: only the family name is removed |
| DiffExamples.TagsDiff | src/diff.rs:155-181 | the `tags` arrays of the example: only the element at position 1 is removed |
| DiffExamples.AddAll | src/diff.rs:233-244 | `null` against any object is one `Replace` of the whole document by that object |
| DiffExamples.RemoveAll | src/diff.rs:246-259 | emptying a two-element array is two removes at `/0` |
| DiffExamples.RemoveTail | src/diff.rs:261-274 | cutting a three-element array to its first element is two removes at `/1` |
| DiffExamples.ReplaceObject | src/diff.rs:275-289 | a two-element array against a one-entry object is an add of the entry, then two removes at `/0` |
| DiffExamples.EscapeJsonKeys | src/diff.rs:291-303 | a changed scalar under any key is replaced under the escaped key, which is one segment and unescapes back to the key |

## Left out

- `PatchDiffer::unchanged` (`src/diff.rs:128`) does nothing. `TDiff`'s equal branches model it as doing nothing, and it has no member of its own.
- Patch application (`crate::patch`, used by the tests) is not part of this model. The tests' "apply the patch and get the right side" checks are not modelled. The model states the exact operation list instead.
- `Patch`, `PatchOperation` and their serialisation are defined outside the modelled files. The model has its own three-operation datatype.
- `serde_json::Number` is an opaque token. A token stands for one class of numbers that serde_json's `PartialEq` treats as equal. By default that equality compares the parsed value, so `0.0` and `-0.0` are one token although they render differently. The model therefore does not tell such numbers apart. No numeric reasoning is done.
- The `Hasher` is modelled as the sequence of writes it receives. `write_u8` is a byte token. A slice's length prefix is a `usize` token. A string's hash (bytes plus terminator) is one token, and a number's hash is one token.
- `IndexMap` is modelled as a sequence of pairs with distinct keys. `extend` into an empty map is the identity on such items (`ItemsWellFormed`). `TDiff` therefore requires well-formed values. Any value converted from a serde map satisfies this.
- `Box<dyn Iterator>` laziness, lifetimes, `clone`, `String::reserve` and the `write!`/`fmt` machinery are left out. Index rendering is the function `DecimalString`.
- `usize` arithmetic is unbounded. `idx - self.shift` is proved never to underflow, so no wrap-around case arises.
- Path lengths count characters, not UTF-8 bytes. `truncate(len)` and `rfind('/')` agree on either count, because the cut always falls at a `/` or at a length the path had before.
- `HashableValue.IntoSerde`: the serde map is modelled as keeping insertion order (serde_json's `preserve_order` feature). Under the default sorted map, the `collect()` at `src/hashable_value.rs:70` re-sorts the keys. The key order it promises then holds only for objects whose keys are already sorted. The diff is not affected, because every value it walks comes from `FromSerde`.
- `HashableValue.FromIntoSerde`: under the default sorted serde map, the round trip holds only up to `Equal` for objects whose keys are not in sorted order. The model's data equality assumes an insertion-ordered map.
- `HashableValue.Hash`: equal objects with entries in a different order may hash differently. No consistency between `Hash` and `Equal` is claimed, and `HashSeesEntryOrder` exhibits the gap.

## Findings

| source | as written | input that shows it | evidently intended | confidence | as-written member | corrected member |
|---|---|---|---|---|---|---|
| src/hashable_value.rs:39-45 | an object writes tag 5 and then its entries, but no entry count | `{"a": {"b": null}}` and `{"a": {}, "b": null}` are unequal, yet both write tag 5, key "a", tag 5, key "b", tag 0 | writes that are prefix-free, as `std::hash::Hash` asks, so that unequal values write different streams (slices already write their length) | medium, not executed | HashableValue.HashPrefixCollision | HashableValue.CountedHashSeparatesUnequal |
