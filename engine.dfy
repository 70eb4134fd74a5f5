/**
 * The four exported functions of gjm.go as methods that follow the Go code
 * statement by statement: the split loop, the per-level branches, the slice
 * copy loops and the recursive call on the re-joined remaining levels. Each
 * operation is proved to compute what the functions of module Resolver say;
 * the mutators are split into the check-then-walk top method and the walk
 * along the levels.
 *
 * The separator is a string, as in Go. GetProperty, DeleteProperty and
 * AddProperty replace an empty separator by "."; UpdateProperty does not, and
 * here it requires a one-character separator.
 *
 * A Go map is changed in place; here each mutating method returns the map as
 * the call leaves it (module Documents wraps them around a caller's map).
 */
module Engine {
  import opened Values
  import opened Tokenizer
  import opened Slices
  import opened Resolver

  /** The separator character a one-character-or-empty separator string stands for. */
  function SeparatorOf(separator: string): char
    requires |separator| <= 1
  {
    if separator == "" then '.' else separator[0]
  }

  /** GetProperty (gjm.go:16-136): the value at path, or Null and the error. */
  method GetProperty(original: Doc, path: string, separator: string) returns (parsed: Value, err: Option<Error>)
    requires |separator| <= 1
    ensures err == ErrorOf(Get(original, path, SeparatorOf(separator)))
    ensures parsed == if err.None? then Get(original, path, SeparatorOf(separator)).value else Null
    decreases |Levels(Normal(path, SeparatorOf(separator)), SeparatorOf(separator))|
  {
    var sep := SeparatorOf(separator);
    // The protective copy of the caller's map.
    var data := original;
    parsed, err := Null, Some(NotExist(path));
    var p := if path == "" then [sep] else path;
    var levels := SplitLevels(p, sep);
    if |levels| > 0 && p != [sep] {
      var head := ParseSegment(levels[0]);
      var key := head.name;
      if head.Indexed? {
        if key !in data {
          return Null, Some(NotExist(key));
        }
        if !data[key].Arr? {
          return Null, Some(NotAnArray(key));
        }
        if head.index >= |data[key].items| {
          return Null, Some(OutOfRange(key, |data[key].items|));
        }
        data := data[key := data[key].items[head.index]];
      }
      var tail := levels[1..];
      if |tail| >= 1 {
        if key !in data {
          return Null, Some(NotExist(key));
        }
        var v := data[key];
        if v.Obj? {
          ReEntryGet(v.fields, tail, sep);
          RejoinedLevels(tail, sep);
          var local, errLocal := GetProperty(v.fields, Join(tail, sep), [sep]);
          if errLocal.Some? {
            return Null, errLocal;
          }
          parsed, err := local, None;
        } else if !v.Null? {
          parsed, err := Obj(map[key := v]), None;
        }
      } else if key in data {
        parsed, err := data[key], None;
      }
    } else if p == [sep] {
      parsed, err := Obj(data), None;
    }
  }

  /** DeleteProperty (gjm.go:142-282): the map as the call leaves it, and the error. */
  method DeleteProperty(original: Doc, path: string, separator: string) returns (data: Doc, err: Option<Error>)
    requires |separator| <= 1
    ensures Outcome(data, err) == Delete(original, path, SeparatorOf(separator))
    decreases |Levels(Normal(path, SeparatorOf(separator)), SeparatorOf(separator))|, 1
  {
    var sep := SeparatorOf(separator);
    var _, found := GetProperty(original, path, [sep]);
    if found.Some? {
      return original, found;
    }
    var p := if path == "" then [sep] else path;
    var levels := SplitLevels(p, sep);
    if |levels| > 0 && p != [sep] {
      data, err := DeleteWalk(original, levels, p, sep);
    } else if p == [sep] {
      data := RemoveAll(original);
      err := None;
    } else {
      data, err := original, None;
    }
  }

  /** The walk of DeleteProperty once GetProperty has found the path (gjm.go:164-274):
      the first level's branches and the recursive call on the re-joined remaining levels. */
  method DeleteWalk(original: Doc, levels: seq<string>, p: string, sep: char) returns (data: Doc, err: Option<Error>)
    requires levels != [] && Fragments(levels, sep)
    ensures Outcome(data, err) == DeleteLevels(original, levels, p, sep)
    decreases |levels|, 0
  {
    data, err := original, None;
    var head := ParseSegment(levels[0]);
    var key := head.name;
    var tail := levels[1..];
    if head.Indexed? && key in data && data[key].Arr? && head.index < |data[key].items| {
      var items := data[key].items;
      var i := head.index;
      if |tail| >= 1 {
        if items[i].Obj? {
          ReEntryDelete(items[i].fields, tail, sep);
          RejoinedLevels(tail, sep);
          var nested, nestedErr := DeleteProperty(items[i].fields, Join(tail, sep), [sep]);
          var slices := items[i := Obj(nested)];
          if nestedErr.None? && |nested| == 0 {
            slices := RemoveAt(items, i);
          }
          data := data[key := Arr(slices)];
          return data, nestedErr;
        }
      } else {
        var slices := RemoveAt(items, i);
        data := data[key := Arr(slices)];
        return data, None;
      }
    }
    assert DeleteLevels(original, levels, p, sep) == DeleteRest(original, key, tail, p, sep);
    if |tail| >= 1 {
      if key !in data {
        return data, Some(NotExist(key));
      }
      var v := data[key];
      if v.Obj? {
        ReEntryDelete(v.fields, tail, sep);
        RejoinedLevels(tail, sep);
        var nested, nestedErr := DeleteProperty(v.fields, Join(tail, sep), [sep]);
        data := data[key := Obj(nested)];
        err := nestedErr;
      } else if !v.Null? {
        data := data - {p};
      }
    } else {
      data := data - {key};
    }
  }

  /** The loop of gjm.go:276-278 that deletes every key of the map. */
  method RemoveAll(m: Doc) returns (r: Doc)
    ensures r == map[]
  {
    r := m;
    while r.Keys != {}
      decreases r.Keys
    {
      var k :| k in r;
      r := r - {k};
    }
    assert r == map[];
  }

  /** AddProperty (gjm.go:288-421): the map as the call leaves it, and the error. */
  method AddProperty(original: Doc, path: string, separator: string, value: Value) returns (data: Doc, err: Option<Error>)
    requires |separator| <= 1
    ensures Outcome(data, err) == Add(original, path, SeparatorOf(separator), value)
    decreases |Levels(Normal(path, SeparatorOf(separator)), SeparatorOf(separator))|, 1
  {
    var sep := SeparatorOf(separator);
    var _, found := GetProperty(original, path, [sep]);
    if found.None? {
      return original, Some(AlreadyExists(path));
    }
    var p := if path == "" then [sep] else path;
    var levels := SplitLevels(p, sep);
    if |levels| > 0 && p != [sep] {
      data, err := AddWalk(original, levels, p, sep, value);
    } else if p == [sep] {
      data, err := original[p := value], None;
    } else {
      data, err := original, None;
    }
  }

  /** The walk of AddProperty once GetProperty has found nothing (gjm.go:315-416): the
      first level's branches and the recursive call on the re-joined remaining levels. */
  method AddWalk(original: Doc, levels: seq<string>, p: string, sep: char, value: Value)
    returns (data: Doc, err: Option<Error>)
    requires levels != [] && Fragments(levels, sep)
    ensures Outcome(data, err) == AddLevels(original, levels, p, sep, value)
    decreases |levels|, 0
  {
    data, err := original, None;
    var head := ParseSegment(levels[0]);
    var key := head.name;
    var tail := levels[1..];
    if head.Indexed? && key in data && data[key].Arr? {
      var items := data[key].items;
      var i := head.index;
      if |tail| >= 1 {
        if i < |items| && items[i].Obj? {
          ReEntryAdd(items[i].fields, tail, sep, value);
          RejoinedLevels(tail, sep);
          var nested, nestedErr := AddProperty(items[i].fields, Join(tail, sep), [sep], value);
          data := data[key := Arr(items[i := Obj(nested)])];
          return data, nestedErr;
        }
      } else {
        var slices := CopyAppend(items, i, value);
        data := data[key := Arr(slices)];
        return data, None;
      }
    }
    assert AddLevels(original, levels, p, sep, value) == AddRest(original, key, tail, p, sep, value);
    if |tail| >= 1 {
      if key !in data {
        return data, Some(NotExist(key));
      }
      var v := data[key];
      if v.Obj? {
        ReEntryAdd(v.fields, tail, sep, value);
        RejoinedLevels(tail, sep);
        var nested, nestedErr := AddProperty(v.fields, Join(tail, sep), [sep], value);
        data := data[key := Obj(nested)];
        err := nestedErr;
      } else if !v.Null? {
        data := data[p := value];
      }
    } else if key !in data {
      data := data[key := value];
    }
  }

  /** UpdateProperty (gjm.go:427-546): AddProperty where GetProperty fails, otherwise a
      second walk that writes the value. */
  method UpdateProperty(original: Doc, path: string, separator: string, value: Value) returns (data: Doc, err: Option<Error>)
    requires |separator| == 1
    ensures Outcome(data, err) == Update(original, path, separator[0], value)
    decreases |Levels(Normal(path, separator[0]), separator[0])|, 1
  {
    var sep := separator[0];
    var _, found := GetProperty(original, path, separator);
    if found.Some? {
      assert Update(original, path, sep, value) == Add(original, path, sep, value);
      data, err := AddProperty(original, path, separator, value);
      return;
    }
    var p := if path == "" then [sep] else path;
    var levels := SplitLevels(p, sep);
    if |levels| > 0 && p != [sep] {
      data, err := UpdateWalk(original, levels, p, separator, value);
    } else if p == [sep] {
      data, err := original[p := value], None;
    } else {
      data, err := original, None;
    }
  }

  /** The walk of UpdateProperty once GetProperty has found the path (gjm.go:444-539):
      the first level's branches and the recursive call on the re-joined remaining levels. */
  method UpdateWalk(original: Doc, levels: seq<string>, p: string, separator: string, value: Value)
    returns (data: Doc, err: Option<Error>)
    requires |separator| == 1 && levels != [] && Fragments(levels, separator[0])
    ensures Outcome(data, err) == UpdateLevels(original, levels, p, separator[0], value)
    decreases |levels|, 0
  {
    var sep := separator[0];
    data, err := original, None;
    var head := ParseSegment(levels[0]);
    var key := head.name;
    var tail := levels[1..];
    if head.Indexed? && key in data && data[key].Arr? {
      var items := data[key].items;
      var i := head.index;
      if |tail| >= 1 {
        if i < |items| && items[i].Obj? {
          ReEntryUpdate(items[i].fields, tail, sep, value);
          RejoinedLevels(tail, sep);
          var nested, nestedErr := UpdateProperty(items[i].fields, Join(tail, sep), separator, value);
          data := data[key := Arr(items[i := Obj(nested)])];
          return data, nestedErr;
        }
      } else {
        var slices := ReplaceAt(items, i, value);
        data := data[key := Arr(slices)];
        return data, None;
      }
    }
    assert UpdateLevels(original, levels, p, sep, value) == UpdateRest(original, key, tail, p, sep, value);
    if |tail| >= 1 {
      if key !in data {
        return data, Some(NotExist(key));
      }
      var v := data[key];
      if v.Obj? {
        ReEntryUpdate(v.fields, tail, sep, value);
        RejoinedLevels(tail, sep);
        var nested, nestedErr := UpdateProperty(v.fields, Join(tail, sep), separator, value);
        data := data[key := Obj(nested)];
        err := nestedErr;
      } else if !v.Null? {
        data := data[p := value];
      }
    } else {
      data := data[key := value];
    }
  }
}
