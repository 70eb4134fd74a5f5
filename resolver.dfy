/**
 * The resolver of gjm.go as functions: GetProperty, DeleteProperty,
 * AddProperty and UpdateProperty.
 *
 * Each operation normalises the path, splits it into levels and descends
 * one level per call. The Go code mutates the caller's map in place; here
 * every mutator returns the map as the call leaves it (an Outcome), and a
 * parent writes the child's new state back into its own slot, which is what
 * sharing the nested map by reference achieves in Go.
 *
 * At the top level the path string is the caller's; at every deeper level
 * the Go code re-joins the remaining levels with the separator and calls
 * itself on that string, so the deeper levels here take the remaining
 * levels together with their join (lemmas ReEntryGet, ReEntryDelete,
 * ReEntryAdd and ReEntryUpdate show the two agree).
 */
module Resolver {
  import opened Values
  import opened Tokenizer
  import opened Slices

  /** An empty path means the separator, that is, the document root. */
  function Normal(path: string, sep: char): (p: string)
    ensures p != "" && (path != "" ==> p == path)
  {
    if path == "" then [sep] else path
  }

  // ---------------------------------------------------------------------
  // GetProperty
  // ---------------------------------------------------------------------

  /** GetProperty (gjm.go:16-136). */
  function Get(doc: Doc, path: string, sep: char): Result<Value> {
    var p := Normal(path, sep);
    var levels := Levels(p, sep);
    if |levels| > 0 && p != [sep] then GetLevels(doc, levels, p, sep)
    else if p == [sep] then Ok(Obj(doc))
    else Err(NotExist(path))
  }

  /** The descent of GetProperty from one level: `original` is the map of this call, `view` its
      protective copy, in which an indexed head is replaced by the element it names. */
  function GetLevels(original: Doc, levels: seq<string>, path: string, sep: char): Result<Value>
    requires levels != []
    decreases |levels|
  {
    var head := ParseSegment(levels[0]);
    var key := head.name;
    if head.Indexed? && key !in original then Err(NotExist(key))
    else if head.Indexed? && !original[key].Arr? then Err(NotAnArray(key))
    else if head.Indexed? && head.index >= |original[key].items| then Err(OutOfRange(key, |original[key].items|))
    else
      var view := if head.Indexed? then original[key := original[key].items[head.index]] else original;
      var tail := levels[1..];
      if tail != [] then
        if key !in view then Err(NotExist(key))
        else match view[key]
          case Null => Err(NotExist(path))
          case Obj(fields) => GetLevels(fields, tail, Join(tail, sep), sep)
          case _ => Ok(Obj(map[key := view[key]]))
      else if key in view then Ok(view[key])
      else Err(NotExist(path))
  }

  // ---------------------------------------------------------------------
  // DeleteProperty
  // ---------------------------------------------------------------------

  /** DeleteProperty (gjm.go:142-282). */
  function Delete(doc: Doc, path: string, sep: char): Outcome {
    match Get(doc, path, sep)
    case Err(e) => Outcome(doc, Some(e))
    case Ok(_) =>
      var p := Normal(path, sep);
      var levels := Levels(p, sep);
      if |levels| > 0 && p != [sep] then DeleteLevels(doc, levels, p, sep)
      else if p == [sep] then Outcome(map[], None)
      else Outcome(doc, None)
  }

  /** A recursive DeleteProperty call on a deeper map: GET first, then the descent. */
  function DeleteChecked(data: Doc, levels: seq<string>, path: string, sep: char): Outcome
    requires levels != []
    decreases |levels|, 2
  {
    match GetLevels(data, levels, path, sep)
    case Err(e) => Outcome(data, Some(e))
    case Ok(_) => DeleteLevels(data, levels, path, sep)
  }

  /** The indexed-head branch of DeleteProperty (gjm.go:169-245); every other case falls
      through to DeleteRest with the property name as key. */
  function DeleteLevels(data: Doc, levels: seq<string>, path: string, sep: char): Outcome
    requires levels != []
    decreases |levels|, 1
  {
    var head := ParseSegment(levels[0]);
    var key := head.name;
    var tail := levels[1..];
    if head.Indexed? && key in data && data[key].Arr? && head.index < |data[key].items| then
      var items := data[key].items;
      var i := head.index;
      if tail == [] then Outcome(data[key := Arr(Without(items, i))], None)
      else if items[i].Obj? then
        var nested := DeleteChecked(items[i].fields, tail, Join(tail, sep), sep);
        var rebuilt := if nested.err.None? && |nested.data| == 0 then Without(items, i)
                       else items[i := Obj(nested.data)];
        Outcome(data[key := Arr(rebuilt)], nested.err)
      else DeleteRest(data, key, tail, path, sep)
    else DeleteRest(data, key, tail, path, sep)
  }

  /** The key branch of DeleteProperty (gjm.go:250-274). */
  function DeleteRest(data: Doc, key: string, tail: seq<string>, path: string, sep: char): Outcome
    decreases |tail| + 1, 0
  {
    if tail == [] then Outcome(data - {key}, None)
    else if key !in data then Outcome(data, Some(NotExist(key)))
    else match data[key]
      case Null => Outcome(data, None)
      case Obj(fields) =>
        var nested := DeleteChecked(fields, tail, Join(tail, sep), sep);
        Outcome(data[key := Obj(nested.data)], nested.err)
      case _ => Outcome(data - {path}, None)
  }

  // ---------------------------------------------------------------------
  // AddProperty
  // ---------------------------------------------------------------------

  /** AddProperty (gjm.go:288-421). */
  function Add(doc: Doc, path: string, sep: char, value: Value): Outcome {
    if Get(doc, path, sep).Ok? then Outcome(doc, Some(AlreadyExists(path)))
    else
      var p := Normal(path, sep);
      var levels := Levels(p, sep);
      if |levels| > 0 && p != [sep] then AddLevels(doc, levels, p, sep, value)
      else if p == [sep] then Outcome(doc[p := value], None)
      else Outcome(doc, None)
  }

  /** A recursive AddProperty call on a deeper map. */
  function AddChecked(data: Doc, levels: seq<string>, path: string, sep: char, value: Value): Outcome
    requires levels != []
    decreases |levels|, 2
  {
    if GetLevels(data, levels, path, sep).Ok? then Outcome(data, Some(AlreadyExists(path)))
    else AddLevels(data, levels, path, sep, value)
  }

  /** The indexed-head branch of AddProperty (gjm.go:320-383). Its errors are assigned to the
      `err` declared by `index, err :=` at gjm.go:337, not to the one checked at gjm.go:385,
      so a missing or non-slice property falls through to AddRest without an error. */
  function AddLevels(data: Doc, levels: seq<string>, path: string, sep: char, value: Value): Outcome
    requires levels != []
    decreases |levels|, 1
  {
    var head := ParseSegment(levels[0]);
    var key := head.name;
    var tail := levels[1..];
    if head.Indexed? && key in data && data[key].Arr? then
      var items := data[key].items;
      var i := head.index;
      if tail == [] then Outcome(data[key := Arr(Appended(items, i, value))], None)
      else if i < |items| && items[i].Obj? then
        var nested := AddChecked(items[i].fields, tail, Join(tail, sep), sep, value);
        Outcome(data[key := Arr(items[i := Obj(nested.data)])], nested.err)
      else AddRest(data, key, tail, path, sep, value)
    else AddRest(data, key, tail, path, sep, value)
  }

  /** The key branch of AddProperty (gjm.go:389-416). */
  function AddRest(data: Doc, key: string, tail: seq<string>, path: string, sep: char, value: Value): Outcome
    decreases |tail| + 1, 0
  {
    if tail == [] then
      if key in data then Outcome(data, None) else Outcome(data[key := value], None)
    else if key !in data then Outcome(data, Some(NotExist(key)))
    else match data[key]
      case Null => Outcome(data, None)
      case Obj(fields) =>
        var nested := AddChecked(fields, tail, Join(tail, sep), sep, value);
        Outcome(data[key := Obj(nested.data)], nested.err)
      case _ => Outcome(data[path := value], None)
  }

  // ---------------------------------------------------------------------
  // UpdateProperty
  // ---------------------------------------------------------------------

  /** UpdateProperty (gjm.go:427-546): AddProperty when GET fails, otherwise a re-walk. */
  function Update(doc: Doc, path: string, sep: char, value: Value): Outcome {
    if Get(doc, path, sep).Err? then Add(doc, path, sep, value)
    else
      var p := Normal(path, sep);
      var levels := Levels(p, sep);
      if |levels| > 0 && p != [sep] then UpdateLevels(doc, levels, p, sep, value)
      else if p == [sep] then Outcome(doc[p := value], None)
      else Outcome(doc, None)
  }

  /** A recursive UpdateProperty call on a deeper map. */
  function UpdateChecked(data: Doc, levels: seq<string>, path: string, sep: char, value: Value): Outcome
    requires levels != []
    decreases |levels|, 2
  {
    if GetLevels(data, levels, path, sep).Err? then AddChecked(data, levels, path, sep, value)
    else UpdateLevels(data, levels, path, sep, value)
  }

  /** The indexed-head branch of UpdateProperty (gjm.go:449-514). */
  function UpdateLevels(data: Doc, levels: seq<string>, path: string, sep: char, value: Value): Outcome
    requires levels != []
    decreases |levels|, 1
  {
    var head := ParseSegment(levels[0]);
    var key := head.name;
    var tail := levels[1..];
    if head.Indexed? && key in data && data[key].Arr? then
      var items := data[key].items;
      var i := head.index;
      if tail == [] then Outcome(data[key := Arr(Replaced(items, i, value))], None)
      else if i < |items| && items[i].Obj? then
        var nested := UpdateChecked(items[i].fields, tail, Join(tail, sep), sep, value);
        Outcome(data[key := Arr(items[i := Obj(nested.data)])], nested.err)
      else UpdateRest(data, key, tail, path, sep, value)
    else UpdateRest(data, key, tail, path, sep, value)
  }

  /** The key branch of UpdateProperty (gjm.go:516-539). */
  function UpdateRest(data: Doc, key: string, tail: seq<string>, path: string, sep: char, value: Value): Outcome
    decreases |tail| + 1, 0
  {
    if tail == [] then Outcome(data[key := value], None)
    else if key !in data then Outcome(data, Some(NotExist(key)))
    else match data[key]
      case Null => Outcome(data, None)
      case Obj(fields) =>
        var nested := UpdateChecked(fields, tail, Join(tail, sep), sep, value);
        Outcome(data[key := Obj(nested.data)], nested.err)
      case _ => Outcome(data[path := value], None)
  }

  // ---------------------------------------------------------------------
  // Re-entry: a recursive call on the joined tail is the descent on the tail
  // ---------------------------------------------------------------------

  /** The re-joined remaining levels of a call split into exactly those levels. */
  lemma RejoinedLevels(levels: seq<string>, sep: char)
    requires levels != [] && Fragments(levels, sep)
    ensures Levels(Normal(Join(levels, sep), sep), sep) == levels
  {
    LevelsJoin(levels, sep);
    JoinNotRoot(levels, sep);
  }

  /** Calling an operation on the join of proper fragments descends through exactly those
      fragments: the re-join and re-split of every recursive call loses nothing. */
  lemma ReEntryGet(data: Doc, levels: seq<string>, sep: char)
    requires levels != [] && Fragments(levels, sep)
    ensures Get(data, Join(levels, sep), sep) == GetLevels(data, levels, Join(levels, sep), sep)
  {
    LevelsJoin(levels, sep);
    JoinNotRoot(levels, sep);
  }

  lemma ReEntryDelete(data: Doc, levels: seq<string>, sep: char)
    requires levels != [] && Fragments(levels, sep)
    ensures Delete(data, Join(levels, sep), sep) == DeleteChecked(data, levels, Join(levels, sep), sep)
  {
    ReEntryGet(data, levels, sep);
    LevelsJoin(levels, sep);
    JoinNotRoot(levels, sep);
  }

  lemma ReEntryAdd(data: Doc, levels: seq<string>, sep: char, value: Value)
    requires levels != [] && Fragments(levels, sep)
    ensures Add(data, Join(levels, sep), sep, value) == AddChecked(data, levels, Join(levels, sep), sep, value)
  {
    ReEntryGet(data, levels, sep);
    LevelsJoin(levels, sep);
    JoinNotRoot(levels, sep);
  }

  lemma ReEntryUpdate(data: Doc, levels: seq<string>, sep: char, value: Value)
    requires levels != [] && Fragments(levels, sep)
    ensures Update(data, Join(levels, sep), sep, value) == UpdateChecked(data, levels, Join(levels, sep), sep, value)
  {
    ReEntryGet(data, levels, sep);
    ReEntryAdd(data, levels, sep, value);
    LevelsJoin(levels, sep);
    JoinNotRoot(levels, sep);
  }

  // ---------------------------------------------------------------------
  // Errors and unchanged documents
  // ---------------------------------------------------------------------

  /** Once GET has resolved a path, the delete descent along it reports no error. */
  lemma {:induction false} DeleteAfterGetSucceeds(data: Doc, levels: seq<string>, path: string, sep: char)
    requires levels != [] && Fragments(levels, sep)
    requires GetLevels(data, levels, path, sep).Ok?
    ensures DeleteLevels(data, levels, path, sep).err == None
    decreases |levels|
  {
    var head := ParseSegment(levels[0]);
    var tail := levels[1..];
    if tail != [] {
      var key := head.name;
      if head.Indexed? {
        var items := data[key].items;
        if items[head.index].Obj? {
          DeleteAfterGetSucceeds(items[head.index].fields, tail, Join(tail, sep), sep);
        }
      } else if data[key].Obj? {
        var fields := data[key].fields;
        DeleteAfterGetSucceeds(fields, tail, Join(tail, sep), sep);
        assert DeleteChecked(fields, tail, Join(tail, sep), sep) == DeleteLevels(fields, tail, Join(tail, sep), sep);
        assert DeleteLevels(data, levels, path, sep) == DeleteRest(data, key, tail, path, sep);
      }
    }
  }

  /** DeleteProperty fails exactly when GetProperty does, with GetProperty's error, and then
      leaves the document as it was. */
  lemma DeleteErrorIsGetError(doc: Doc, path: string, sep: char)
    ensures Delete(doc, path, sep).err == ErrorOf(Get(doc, path, sep))
    ensures Delete(doc, path, sep).err.Some? ==> Delete(doc, path, sep).data == doc
  {
    var p := Normal(path, sep);
    var levels := Levels(p, sep);
    if Get(doc, path, sep).Ok? && |levels| > 0 && p != [sep] {
      DeleteAfterGetSucceeds(doc, levels, p, sep);
    }
  }

  /** A failing AddProperty descent changes nothing, at any depth. */
  lemma {:induction false} AddCheckedErrorUnchanged(data: Doc, levels: seq<string>, path: string, sep: char, value: Value)
    requires levels != []
    ensures AddChecked(data, levels, path, sep, value).err.Some? ==> AddChecked(data, levels, path, sep, value).data == data
    decreases |levels|, 2
  {
    if GetLevels(data, levels, path, sep).Err? {
      AddLevelsErrorUnchanged(data, levels, path, sep, value);
    }
  }

  lemma {:induction false} AddLevelsErrorUnchanged(data: Doc, levels: seq<string>, path: string, sep: char, value: Value)
    requires levels != []
    ensures AddLevels(data, levels, path, sep, value).err.Some? ==> AddLevels(data, levels, path, sep, value).data == data
    decreases |levels|, 1
  {
    var head := ParseSegment(levels[0]);
    var key := head.name;
    var tail := levels[1..];
    var r := AddLevels(data, levels, path, sep, value);
    if head.Indexed? && key in data && data[key].Arr? && tail != [] && head.index < |data[key].items|
       && data[key].items[head.index].Obj? {
      var items := data[key].items;
      var i := head.index;
      var nested := AddChecked(items[i].fields, tail, Join(tail, sep), sep, value);
      AddCheckedErrorUnchanged(items[i].fields, tail, Join(tail, sep), sep, value);
      assert r == Outcome(data[key := Arr(items[i := Obj(nested.data)])], nested.err);
      assert items[i := items[i]] == items;
      assert data[key := Arr(items)] == data;
    } else if !(head.Indexed? && key in data && data[key].Arr? && tail == []) {
      assert r == AddRest(data, key, tail, path, sep, value);
      AddRestErrorUnchanged(data, key, tail, path, sep, value);
    }
  }

  lemma {:induction false} AddRestErrorUnchanged(data: Doc, key: string, tail: seq<string>, path: string, sep: char, value: Value)
    ensures AddRest(data, key, tail, path, sep, value).err.Some? ==> AddRest(data, key, tail, path, sep, value).data == data
    decreases |tail| + 1, 0
  {
    if tail != [] && key in data && data[key].Obj? {
      var fields := data[key].fields;
      var nested := AddChecked(fields, tail, Join(tail, sep), sep, value);
      AddCheckedErrorUnchanged(fields, tail, Join(tail, sep), sep, value);
      assert AddRest(data, key, tail, path, sep, value) == Outcome(data[key := Obj(nested.data)], nested.err);
      assert data[key := Obj(fields)] == data;
    }
  }

  /** A failing AddProperty call leaves the document as it was. */
  lemma AddErrorUnchanged(doc: Doc, path: string, sep: char, value: Value)
    ensures Add(doc, path, sep, value).err.Some? ==> Add(doc, path, sep, value).data == doc
  {
    var p := Normal(path, sep);
    var levels := Levels(p, sep);
    if |levels| > 0 {
      AddCheckedErrorUnchanged(doc, levels, p, sep, value);
    }
  }

  /** A failing UpdateProperty descent changes nothing, at any depth. */
  lemma {:induction false} UpdateCheckedErrorUnchanged(data: Doc, levels: seq<string>, path: string, sep: char, value: Value)
    requires levels != []
    ensures UpdateChecked(data, levels, path, sep, value).err.Some? ==> UpdateChecked(data, levels, path, sep, value).data == data
    decreases |levels|, 2
  {
    if GetLevels(data, levels, path, sep).Err? {
      AddCheckedErrorUnchanged(data, levels, path, sep, value);
    } else {
      UpdateLevelsErrorUnchanged(data, levels, path, sep, value);
    }
  }

  lemma {:induction false} UpdateLevelsErrorUnchanged(data: Doc, levels: seq<string>, path: string, sep: char, value: Value)
    requires levels != []
    ensures UpdateLevels(data, levels, path, sep, value).err.Some? ==> UpdateLevels(data, levels, path, sep, value).data == data
    decreases |levels|, 1
  {
    var head := ParseSegment(levels[0]);
    var key := head.name;
    var tail := levels[1..];
    var r := UpdateLevels(data, levels, path, sep, value);
    if head.Indexed? && key in data && data[key].Arr? && tail != [] && head.index < |data[key].items|
       && data[key].items[head.index].Obj? {
      var items := data[key].items;
      var i := head.index;
      var nested := UpdateChecked(items[i].fields, tail, Join(tail, sep), sep, value);
      UpdateCheckedErrorUnchanged(items[i].fields, tail, Join(tail, sep), sep, value);
      assert r == Outcome(data[key := Arr(items[i := Obj(nested.data)])], nested.err);
      assert items[i := items[i]] == items;
      assert data[key := Arr(items)] == data;
    } else if !(head.Indexed? && key in data && data[key].Arr? && tail == []) {
      assert r == UpdateRest(data, key, tail, path, sep, value);
      UpdateRestErrorUnchanged(data, key, tail, path, sep, value);
    }
  }

  lemma {:induction false} UpdateRestErrorUnchanged(data: Doc, key: string, tail: seq<string>, path: string, sep: char, value: Value)
    ensures UpdateRest(data, key, tail, path, sep, value).err.Some? ==> UpdateRest(data, key, tail, path, sep, value).data == data
    decreases |tail| + 1, 0
  {
    if tail != [] && key in data && data[key].Obj? {
      var fields := data[key].fields;
      var nested := UpdateChecked(fields, tail, Join(tail, sep), sep, value);
      UpdateCheckedErrorUnchanged(fields, tail, Join(tail, sep), sep, value);
      assert UpdateRest(data, key, tail, path, sep, value) == Outcome(data[key := Obj(nested.data)], nested.err);
      assert data[key := Obj(fields)] == data;
    }
  }

  /** A failing UpdateProperty call leaves the document as it was. */
  lemma UpdateErrorUnchanged(doc: Doc, path: string, sep: char, value: Value)
    ensures Update(doc, path, sep, value).err.Some? ==> Update(doc, path, sep, value).data == doc
  {
    AddErrorUnchanged(doc, path, sep, value);
    var p := Normal(path, sep);
    var levels := Levels(p, sep);
    if |levels| > 0 {
      UpdateCheckedErrorUnchanged(doc, levels, p, sep, value);
    }
  }
}
