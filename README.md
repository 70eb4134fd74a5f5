# go-json-map path engine, modelled in Dafny

go-json-map (package `gjm`) reads and edits a nested `map[string]interface{}`
document through a path such as `one[3].three[0].four`. It has four exported
functions:

- `GetProperty` reads the value at the path.
- `DeleteProperty` removes the value, but only if `GetProperty` finds it.
- `AddProperty` creates the value, but only if `GetProperty` finds nothing.
- `UpdateProperty` replaces the value where it exists, and otherwise hands over to `AddProperty`.

Every operation runs the same prologue:

- an empty separator becomes `"."`;
- an empty path becomes the separator;
- the path is split on the separator and empty fragments are dropped;
- a fragment of the form `name[digits]` is read as a property name with an index.

The operation then handles the first level and calls itself on the remaining
levels, re-joined with the separator.

The project has three layers:

- **Functions** (module `Resolver`) state what each operation returns and what
  it leaves in the caller's map, branch by branch as `gjm.go` is written.
- **Methods** (module `Engine`, and the class `Documents.Document`) follow the
  Go statements. They contain the split loop, the slice copy loops, the
  key-by-key emptying of the root and the recursive call on the re-joined
  string. Each method is proved to compute what the functions say.
- **A reference reading on segments** (module `Reference`) says what a path
  addresses, independent of string handling. The lemmas of module
  `Properties` state each operation against it, including:
  - round trips (add then get, update then get, delete then get);
  - idempotence of writing back a value;
  - that errors leave the document unchanged;
  - the library's quirks.

Module `Scenarios` restates the test cases of `gjm_test.go` as lemmas about
concrete documents.

Modelling choices:

- **Documents.** A document is `map<string, Value>`, where `Value` is a
  mapping, a sequence, a string, an integer, a boolean, or `Null` for Go's `nil`.
- **Mutation.** A mutation in place is modelled as the mapping the call leaves
  behind (`Outcome`). A parent writes its child's new state back into its own
  slot, which is what sharing the nested Go map by reference achieves.
- **Recursion.** The functions recurse on the list of levels rather than on
  the re-joined string. `Resolver.RejoinedLevels` and the `Resolver.ReEntry*`
  lemmas prove that re-joining the remaining levels and splitting them again
  loses nothing. They rely on the separator being one character.
- **Segments.** The reference reading and the properties take a path as a list
  of segments that read back from their own text. A plain key is any non-empty
  text that the parser does not read as `word[digits]`, such as `first-name` or
  `two words`. An indexed segment's name is a word. No segment's text may
  contain the separator (`Tokenizer.AllWellFormed`).

Where the code's behaviour may surprise a caller, the model follows the code:

- **AddProperty past the end.** With an index at or past the length, AddProperty
  appends the value rather than dropping it (`Properties.AddAt`,
  `Scenarios.AddPastEnd`).
- **AddProperty's lost errors.** The indexed errors inside AddProperty are
  assigned to a shadowed `err` and so are lost. A missing name `n` in `n[i]`
  therefore sets the key `n` itself (`Properties.AddIndexedMissing`).
- **UpdateProperty past the end.** UpdateProperty also appends for an index
  at or past the length (`Properties.UpdateAt`, `Scenarios.UpdateAppends`).
- **Keys made of the whole path.** Below a value that is neither a mapping nor
  null:
  - AddProperty and UpdateProperty store the value under the whole remaining
    path string;
  - DeleteProperty deletes that key;
  - GetProperty returns a one-entry mapping.
- **The root.** Only a path equal to the separator is the root:
  - GetProperty on the root returns the whole document;
  - AddProperty on the root therefore always fails;
  - UpdateProperty on the root stores the value under the key made of the
    separator.
- **Delete then get.** After a delete, the same path can still resolve. Deleting
  element `i` shifts the next element into its place, and pruning can remove
  an enclosing element (`Properties.DeleteElementThenGet`).
- **Update idempotence.** "Updating with the value GET returned changes
  nothing" holds only for paths through mappings (`Properties.UpdateIdempotent`).
  Below a leaf it fails (`Scenarios.UpdateBelowLeafChanges`).
- **An unreachable branch.** In UpdateProperty's walk, the branch for a
  missing key with further levels cannot be taken, because GET has already
  resolved the path. It is modelled as written.

## Model

| member | source | states |
|---|---|---|
| Digits.DigitValue | gjm.go:62 | a decimal digit reads as a number below ten |
| Digits.DigitChar | gjm.go:72 | printing a number below ten gives a digit that reads back as it |
| Digits.Decimal | gjm.go:72 | `%d` prints a non-empty run of digits without a leading zero |
| Digits.ValueOf | gjm.go:62 | `strconv.Atoi` on a run of digits: zero exactly when every digit is `0`; `ValueOfDecimal` shows it inverts `%d` |
| Digits.ValueOfDecimal | gjm.go:62-72 | reading back a printed length gives the length (`strconv.Atoi` inverts `%d`) |
| Tokenizer.Split | gjm.go:32 | `strings.Split` on one character yields at least one piece, and no piece contains the separator |
| Tokenizer.NonEmpty | gjm.go:34-38 | the kept fragments are exactly the non-empty ones, never more than were split |
| Tokenizer.Levels | gjm.go:32-38 | every level of a path is non-empty and free of the separator |
| Tokenizer.SplitLevels | gjm.go:32-38 | the split-and-filter loop computes the levels of the path |
| Tokenizer.SplitNoSeparator | gjm.go:32 | a string without the separator splits into itself |
| Tokenizer.SplitConcat | gjm.go:32 | splitting at one separator splits the two sides independently |
| Tokenizer.Join | gjm.go:105 | `strings.Join` starts with the first fragment and puts the separator right after it when more follow; `JoinSplit` and `SplitJoin` make it the inverse of `Split` |
| Tokenizer.JoinSplit | gjm.go:105 | joining the pieces of a split gives back the string |
| Tokenizer.SplitJoin | gjm.go:105 | splitting a join of separator-free fragments gives back the fragments |
| Tokenizer.NonEmptyConcat | gjm.go:34-38 | filtering distributes over concatenation |
| Tokenizer.NonEmptyKeepsAll | gjm.go:34-38 | filtering keeps a list with no empty fragment unchanged |
| Tokenizer.LevelsConcat | gjm.go:32-38 | the levels of `a` + separator + `b` are the levels of `a` followed by those of `b` |
| Tokenizer.LeadingSeparator | gjm.go:32-38 | a leading separator is ignored |
| Tokenizer.TrailingSeparator | gjm.go:32-38 | a trailing separator is ignored |
| Tokenizer.DoubledSeparator | gjm.go:32-38 | a doubled separator counts as one |
| Tokenizer.NoLevels | gjm.go:32-40 | a path has no levels if and only if it consists of separators only |
| Tokenizer.LevelsJoin | gjm.go:105 | re-joining proper levels and splitting again gives the same levels |
| Tokenizer.JoinNotRoot | gjm.go:105 | the re-joined remaining levels are neither empty nor the bare separator |
| Tokenizer.WordPrefix | gjm.go:47-51 | the longest prefix of `\w` characters: all of it word characters, and the next character not one |
| Tokenizer.ParseSegment | gjm.go:45-61 | a plain fragment keeps its whole text as the name; an indexed one is a word followed by `[` in the fragment |
| Tokenizer.ParseText | gjm.go:45-61 | parsing the text of a well-formed segment gives the segment back |
| Tokenizer.WordSegment | gjm.go:45-61 | a segment named by a word is well formed, and its text avoids any separator that is neither a word character nor a bracket |
| Tokenizer.WordSegments | gjm.go:45-61 | segments named by words are well formed for such a separator |
| Tokenizer.TextsAreFragments | gjm.go:34-61 | the texts of well-formed segments are proper levels that parse back to the segments |
| Tokenizer.PathLevels | gjm.go:28-40 | the path of well-formed segments splits into their texts and is not the root |
| Slices.Without | gjm.go:200-218 | removing an in-range index gives length n-1, keeps the elements before it and shifts the later ones down; an index out of range changes nothing |
| Slices.Appended | gjm.go:352-363 | at or past the end the value is appended after an unchanged prefix; otherwise nothing changes |
| Slices.Replaced | gjm.go:479-494 | an in-range index is replaced, past the end the value is appended, and every other element is kept |
| Slices.RemoveAt | gjm.go:200-218 | the copy loop that skips the index computes `Without` |
| Slices.CopyAppend | gjm.go:352-363 | the copy loop followed by the append computes `Appended` |
| Slices.ReplaceAt | gjm.go:479-494 | the copy loop that substitutes the index, followed by the append, computes `Replaced` |
| Values.Message | gjm.go:71-85 | each error's text names the property or path it is about, in the wording of `fmt.Errorf` at gjm.go:71-85 |
| Resolver.Normal | gjm.go:28-30 | the normalised path is never empty, and a non-empty path is kept as given |
| Resolver.Get | gjm.go:16-136 | GetProperty's result, branch by branch; `Reference.GetResolve` states it as the reference reading |
| Resolver.GetLevels | gjm.go:40-133 | GET's descent on the levels; `ReEntryGet` shows it is the recursive call on the re-joined string |
| Resolver.Delete | gjm.go:142-282 | DeleteProperty: GET's error, or the walk; `DeleteErrorIsGetError` and `Properties.DeleteAt` state what it does |
| Resolver.DeleteChecked | gjm.go:147-162 | a recursive DeleteProperty call on a nested map; `ReEntryDelete` ties it to the call on the re-joined string |
| Resolver.DeleteLevels | gjm.go:169-245 | the indexed-head branch with element removal and pruning; `DeleteAfterGetSucceeds` shows it reports no error after GET |
| Resolver.DeleteRest | gjm.go:250-274 | the key branch, including the whole-path key below a leaf; `Properties.DeleteBelowLeaf` states that case |
| Resolver.Add | gjm.go:288-421 | AddProperty: "already exists" where GET succeeds, otherwise the walk; `AddErrorUnchanged` and `Properties.AddAt` state what it does |
| Resolver.AddChecked | gjm.go:294-313 | a recursive AddProperty call on a nested map; `ReEntryAdd` ties it to the call on the re-joined string |
| Resolver.AddLevels | gjm.go:320-383 | the indexed-head branch, with the lost errors; `AddLevelsErrorUnchanged` and `Properties.AddIndexedMissing` state its effect |
| Resolver.AddRest | gjm.go:389-416 | the key branch, including the whole-path key; `AddRestErrorUnchanged` and `Properties.AddWholePathKey` state its effect |
| Resolver.Update | gjm.go:427-546 | UpdateProperty: AddProperty where GET fails, otherwise the walk; `UpdateErrorUnchanged` and `Properties.UpdateAt` state what it does |
| Resolver.UpdateChecked | gjm.go:429-442 | a recursive UpdateProperty call on a nested map; `ReEntryUpdate` ties it to the call on the re-joined string |
| Resolver.UpdateLevels | gjm.go:449-514 | the indexed-head branch, replacing or appending; `UpdateLevelsErrorUnchanged` and `Properties.UpdateThenGet` state its effect |
| Resolver.UpdateRest | gjm.go:516-539 | the key branch, including the whole-path key below a leaf; `Properties.UpdateBelowLeaf` states that case |
| Resolver.RejoinedLevels | gjm.go:105 | the re-joined remaining levels, normalised and split, are exactly those levels |
| Resolver.ReEntryGet | gjm.go:105 | GetProperty on the re-joined remaining levels is GET's descent on those levels |
| Resolver.ReEntryDelete | gjm.go:196-256 | the recursive DeleteProperty call is the checked descent on the remaining levels |
| Resolver.ReEntryAdd | gjm.go:349-395 | the recursive AddProperty call is the checked descent on the remaining levels |
| Resolver.ReEntryUpdate | gjm.go:476-522 | the recursive UpdateProperty call is the checked descent on the remaining levels |
| Resolver.DeleteAfterGetSucceeds | gjm.go:164-274 | once GET has resolved a path, the delete walk along it reports no error |
| Resolver.DeleteErrorIsGetError | gjm.go:147-150 | DeleteProperty fails exactly when GetProperty does, with GetProperty's error, and then leaves the document unchanged |
| Resolver.AddCheckedErrorUnchanged | gjm.go:294-416 | a failing AddProperty call at any depth leaves its mapping unchanged |
| Resolver.AddLevelsErrorUnchanged | gjm.go:320-383 | a failing indexed-head branch of AddProperty leaves the mapping unchanged |
| Resolver.AddRestErrorUnchanged | gjm.go:389-416 | a failing key branch of AddProperty leaves the mapping unchanged |
| Resolver.AddErrorUnchanged | gjm.go:288-421 | a failing AddProperty leaves the caller's document unchanged |
| Resolver.UpdateCheckedErrorUnchanged | gjm.go:429-539 | a failing UpdateProperty call at any depth leaves its mapping unchanged |
| Resolver.UpdateLevelsErrorUnchanged | gjm.go:449-514 | a failing indexed-head branch of UpdateProperty leaves the mapping unchanged |
| Resolver.UpdateRestErrorUnchanged | gjm.go:516-539 | a failing key branch of UpdateProperty leaves the mapping unchanged |
| Resolver.UpdateErrorUnchanged | gjm.go:427-546 | a failing UpdateProperty leaves the caller's document unchanged |
| Engine.GetProperty | gjm.go:16-136 | the method returns GET's value, or `nil` and exactly GET's error |
| Engine.DeleteProperty | gjm.go:142-282 | the map left behind and the error are what the delete function says |
| Engine.DeleteWalk | gjm.go:164-274 | the walk after a successful GET, including pruning and the recursive call, computes `DeleteLevels` |
| Engine.RemoveAll | gjm.go:275-279 | deleting keys one by one empties the map |
| Engine.AddProperty | gjm.go:288-421 | the map left behind and the error are what the add function says |
| Engine.AddWalk | gjm.go:315-416 | the walk after a failed GET, including the lost indexed errors, computes `AddLevels` |
| Engine.UpdateProperty | gjm.go:427-546 | the map left behind and the error are what the update function says, through AddProperty when GET fails |
| Engine.UpdateWalk | gjm.go:444-539 | the second walk after a successful GET computes `UpdateLevels` |
| Documents.Document.constructor | gjm.go:16 | the document holds the caller's map |
| Documents.Document.GetProperty | gjm.go:21-25 | reading returns GET's result and leaves the document as it was |
| Documents.Document.DeleteProperty | gjm.go:142-282 | the caller's map becomes what the delete function makes of the old one |
| Documents.Document.AddProperty | gjm.go:288-421 | the caller's map becomes what the add function makes of the old one |
| Documents.Document.UpdateProperty | gjm.go:427-546 | the caller's map becomes what the update function makes of the old one |
| Reference.GetLevelsResolve | gjm.go:40-133 | GET's descent on the texts of well-formed segments equals the reference reading, error for error |
| Reference.GetResolve | gjm.go:16-136 | GetProperty on the path of well-formed segments is the reference reading |
| Reference.FindResolve | gjm.go:99-130 | a value reached through mappings is what the reference reading returns |
| Reference.ResolveBelow | gjm.go:99-111 | below a prefix through mappings, reading the rest of the path starts at the mapping reached |
| Reference.PutMapThenFindMap | gjm.go:196-256 | writing a mapping back at a prefix and reading the prefix again gives that mapping |
| Reference.PutMapSame | gjm.go:476-522 | writing back the mapping already there changes nothing |
| Reference.PutMapFrame | gjm.go:256-258 | rebuilding along a prefix keeps the document's keys, and every key other than the first segment's keeps its value |
| Reference.PrunedIsPut | gjm.go:193-209 | pruning removes only an element whose own mapping became empty; otherwise the write-back is plain |
| Reference.FindHasPrefix | gjm.go:99-111 | a path through mappings passes through a mapping at its prefix, where the last segment reads the same value |
| Properties.Step | gjm.go:40-44 | the first level of a segment path parses as its first segment, and the rest are the texts of the rest |
| Properties.LastStep | gjm.go:99-130 | below a prefix through mappings, GET's descent is the reading of the last segment there |
| Properties.BridgeGet | gjm.go:28-40 | GetProperty on a segment path is its descent on the segment texts |
| Properties.BridgeDelete | gjm.go:147-162 | DeleteProperty on a segment path is its checked descent on the segment texts |
| Properties.BridgeAdd | gjm.go:294-313 | AddProperty on a segment path is its checked descent on the segment texts |
| Properties.BridgeUpdate | gjm.go:429-442 | UpdateProperty on a segment path is its checked descent on the segment texts |
| Properties.GetBelow | gjm.go:99-130 | GET on a path through mappings reads the last segment in the mapping reached |
| Properties.AddCheckedLast | gjm.go:320-416 | at the top level, adding a segment GET does not find applies `AddSlot` to the document |
| Properties.AddCheckedAt | gjm.go:288-421 | below a prefix through mappings, adding a missing segment applies `AddSlot` there and rebuilds the document around it |
| Properties.UpdateCheckedLast | gjm.go:449-539 | at the top level, updating a segment GET finds applies `UpdateSlot` to the document |
| Properties.UpdateCheckedAt | gjm.go:427-546 | below a prefix through mappings, updating applies `UpdatedSlot` there, without error |
| Properties.DeleteCheckedLast | gjm.go:169-274 | at the top level, deleting a segment GET finds applies `DeleteSlot` to the document |
| Properties.DeleteCheckedAt | gjm.go:142-282 | below a prefix through mappings, deleting a found segment applies `DeleteSlot` there and prunes an emptied element |
| Properties.GetRoot | gjm.go:28-133 | the separator alone and the empty path both return the whole document |
| Properties.GetOnlySeparators | gjm.go:26-40 | any other path made of separators only fails with "does not exist" for the path |
| Properties.GetFound | gjm.go:62-130 | a value reached through mappings and in-range indices is what GET returns for its path |
| Properties.GetBelowLeaf | gjm.go:112-116 | below a value that is neither a mapping nor null, GET returns the one-entry mapping of that value |
| Properties.GetBelowNull | gjm.go:99-101 | below a null value, GET reports the remaining path from that level as missing |
| Properties.AddRoot | gjm.go:294-299 | adding at the root always fails with "already exists" and changes nothing |
| Properties.AddAt | gjm.go:288-421 | AddProperty refuses a path GET resolves, leaving the document alone, and otherwise applies `AddSlot` at the mapping reached |
| Properties.AddThenGet | gjm.go:352-415 | after adding a missing key, or at the end of a sequence, ADD reports no error and GET returns the value added |
| Properties.AddTwice | gjm.go:294-299 | adding the same path twice: the second call fails and changes nothing |
| Properties.AddIndexedMissing | gjm.go:337-415 | adding `n[i]` where `n` is missing sets key `n` to the value itself; GET on the same path then indexes into that value: "not an array" for a non-sequence, "out of range" for a short sequence, the element otherwise |
| Properties.AddWholePathKey | gjm.go:385-403 | when GET fails at an index below a non-mapping, ADD stores the value under the whole path string |
| Properties.WholePathUnresolved | gjm.go:62-87 | GET fails when the indexed head is not a sequence, is too short, or holds null |
| Properties.WholePathLevels | gjm.go:389-403 | ADD's walk for such a path sets the key made of the whole path |
| Properties.UpdateRoot | gjm.go:540-542 | updating the root stores the value under the key equal to the separator |
| Properties.UpdateAt | gjm.go:427-546 | UpdateProperty applies `UpdatedSlot` (write where GET finds, add where not) at the mapping reached, without error |
| Properties.UpdateThenGet | gjm.go:479-538 | after updating a key, an element or the end of a sequence, GET returns the new value |
| Properties.UpdateIdempotent | gjm.go:479-538 | writing back the value at a path through mappings leaves the document unchanged, without error |
| Properties.UpdateSame | gjm.go:479-538 | writing the value a segment already reads leaves its mapping unchanged |
| Properties.UpdateBelowLeaf | gjm.go:526-529 | below a leaf, UPDATE stores the value under the whole path string, and GET still returns the one-entry mapping of the leaf |
| Properties.DeleteRoot | gjm.go:275-279 | deleting the root (or the empty path) empties the document |
| Properties.DeleteAt | gjm.go:142-282 | delete fails with GET's error on the last segment, or applies `DeleteSlot` at the mapping reached and prunes an emptied element |
| Properties.DeleteThenGet | gjm.go:273 | deleting a key removes just that key from its mapping, and GET on the path then reports the key missing |
| Properties.DeleteBelowLeaf | gjm.go:262 | below a value that is neither a mapping nor null, DELETE removes the key spelled by the whole path string, without error, and GET on the path still returns the one-entry mapping of the value |
| Properties.DeleteElement | gjm.go:211-220 | deleting `n[i]` replaces the sequence by the sequence without element `i` |
| Properties.DeleteElementThenGet | gjm.go:211-220 | after deleting element `i`, the same path reads the next element, or is out of range for the shorter sequence |
| Properties.ShiftedSlot | gjm.go:211-220 | after removing element `i`, the segment `n[i]` reads the old element `i+1` or is out of range |
| Properties.DeletePrunesElement | gjm.go:193-209 | deleting the only key of a sequence element's mapping removes the whole element |
| Scenarios.GetNestedElement | gjm_test.go:611-617 | `one.two.three[1]` of the first test document reads 2 |
| Scenarios.GetListedElement | gjm_test.go:660-666 | `one[2].map_c` reads the sequence 7, 8, 9 |
| Scenarios.GetMissing | gjm_test.go:625-631 | `one.two.four` fails with "Property four does not exist" |
| Scenarios.GetMissingSequence | gjm_test.go:632-638 | `one.two.four[0]` fails with the same error |
| Scenarios.GetOutOfRange | gjm.go:66-75 | `one.two.three[9]` fails with the sequence's name and length 3 |
| Scenarios.GetDeepMissingKey | gjm_test.go:681-687 | `one[1].two[1].eight` fails, naming `eight` |
| Scenarios.GetDeepMissingMapping | gjm_test.go:688-694 | `one[3].three[0].seven.eight` fails, naming `seven` |
| Scenarios.MessageOutOfRange | gjm.go:71-73 | the out-of-range message reads "three: Min index is 0, Max index is 3" |
| Scenarios.MessageNotExist | gjm_test.go:625-631 | the missing-property message reads "Property four does not exist" |
| Scenarios.MessageAlreadyExists | gjm_test.go:298-305 | the existing-property message reads "Property one already exists" |
| Scenarios.AddExisting | gjm_test.go:298-305 | adding `one` fails with "already exists" and leaves the document as it was |
| Scenarios.AddAppends | gjm_test.go:237-257 | adding `one.two.three[3]` appends the value to 1, 2, 3 |
| Scenarios.AddPastEnd | gjm.go:352-363 | adding `one.two.three[7]` appends the value as well |
| Scenarios.AddDeep | gjm_test.go:258-297 | adding `one[3].three[0].four.nine` sets just that key in the deep mapping |
| Scenarios.UpdateAppends | gjm_test.go:52-72 | updating `one.two.three[3]` appends, through AddProperty |
| Scenarios.UpdateReplaces | gjm_test.go:94-114 | updating `one.two.three[1]` replaces the middle element and keeps the others |
| Scenarios.UpdateDeep | gjm_test.go:134-173 | updating `one[3].three[0].four.nine` adds the missing key |
| Scenarios.UpdateBelowLeafChanges | gjm.go:526-529 | `a.b` below a number reads as the whole document, yet writing that back adds the key `a.b` |
| Scenarios.DeleteRootCase | gjm_test.go:341-347 | deleting `.` empties the document |
| Scenarios.DeleteOnlyKey | gjm_test.go:348-354 | deleting the only top-level key empties the document |
| Scenarios.DeleteNestedKey | gjm_test.go:355-369 | deleting `one.two` keeps its sibling `four` |
| Scenarios.DeleteListedElement | gjm_test.go:386-397 | deleting `one[0]` shifts the later elements down, so the same path then reads the old second element |
| Scenarios.DeletePrunes | gjm_test.go:484-520 | deleting `one[2].two[1].eight` empties that element's mapping, so the element is removed |
| Scenarios.AddHyphenatedKey | gjm.go:34-61 | adding `person.first-name` succeeds and GET then reads the value back; a hyphenated key is a plain segment |
| Scenarios.DeleteKeepsEmptyMapping | gjm_test.go:521-556 | deleting `one[3].three[1].seven.eight` leaves `seven` as an empty mapping |

## Left out

- Multi-character separators: the separator is one character. The re-join
  and re-split of every recursive call is the identity only then.
- Engine.UpdateProperty: requires a one-character separator. The source does
  not replace an empty separator, and Go's `strings.Split` with an empty
  separator explodes the path into single characters; neither is modelled.
- Tokenizer.ParseSegment: reads only fragments that are exactly `word[digits]`
  as indexed. The source uses RE2 searches, which can also match inside odd
  fragments such as `a-b[1]` or `x[1]y`; those fragments are plain keys here.
- The `strconv.Atoi` failure path and its "must be of type number" message
  (gjm.go:89-94 and its copies) are left out. An index is a `nat`, and a digit
  string can make Atoi fail only by overflowing an `int`.
- `IsKind` is not part of this model. It is read as "is a sequence" or "is a
  mapping", and a missing value counts as neither.
- Go's static element types (`[]int`, `[]interface{}`, `[]map[string]interface{}`)
  and map-kind values that are not `map[string]interface{}` are not modelled.
  There is one sequence constructor, one mapping constructor, and structural
  equality in place of `reflect.DeepEqual`.
- Aliasing is not modelled. GetProperty returns nested containers that share
  storage with the document, and in-place updates through shared nested maps
  are replaced by writing the child's new state back into the parent.
- Engine.GetProperty: the protective copy of the caller's map is a value copy.
  The claim that GET never changes the caller's map holds by construction,
  because the map is a value; it is stated for `Documents.Document.GetProperty`.
- The tests' fixtures use Go `int` and `string` leaves; the scenarios use `Num`
  and `Str` values. The runner loops of `gjm_test.go` and `setup` are not
  modelled.
