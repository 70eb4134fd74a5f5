/**
 * What the four operations do, stated against the reference reading of
 * paths: a path of well-formed segments `prefix + [last]` whose prefix leads
 * through mappings to a mapping f. Each mutator changes f by one of the slot
 * functions of module Reference and rebuilds the document around it.
 */
module Properties {
  import opened Values
  import opened Tokenizer
  import opened Slices
  import opened Resolver
  import opened Reference

  // ---------------------------------------------------------------------
  // One level of the descent, on segments
  // ---------------------------------------------------------------------

  /** The first level of the path of `prefix + [last]` is the first segment, and the
      levels below it are the path of the remaining segments. */
  lemma Step(prefix: seq<Seg>, last: Seg, sep: char)
    requires AllWellFormed(prefix + [last], sep)
    ensures ParseSegment(Texts(prefix + [last])[0]) == (prefix + [last])[0]
    ensures Texts(prefix + [last])[1..] == Texts((prefix + [last])[1..])
    ensures prefix == [] ==> Texts(prefix + [last])[1..] == []
    ensures prefix != [] ==> (prefix + [last])[1..] == prefix[1..] + [last]
    ensures prefix != [] ==> AllWellFormed(prefix[1..] + [last], sep)
    ensures prefix != [] ==> Texts(prefix + [last])[1..] != []
  {
    var segs := prefix + [last];
    TextsAreFragments(segs, sep);
    if prefix != [] {
      assert segs[1..] == prefix[1..] + [last];
      forall j | 0 <= j < |segs[1..]| ensures WellFormed(segs[1..][j]) && sep !in SegmentText(segs[1..][j]) {
        assert segs[1..][j] == segs[j + 1];
      }
    }
  }

  /** Below a prefix through mappings, the reference reading is the reading of the last
      segment in the mapping reached. */
  lemma LastStep(data: Doc, prefix: seq<Seg>, last: Seg, sep: char)
    requires AllWellFormed(prefix + [last], sep)
    requires FindMap(data, prefix).Some?
    ensures GetLevels(data, Texts(prefix + [last]), PathOf(prefix + [last], sep), sep)
            == Resolve(FindMap(data, prefix).value, [last], sep)
    ensures GetLevels(data, Texts(prefix + [last]), PathOf(prefix + [last], sep), sep).Ok?
            <==> Slot(FindMap(data, prefix).value, last).Some?
  {
    GetLevelsResolve(data, prefix + [last], sep);
    ResolveBelow(data, prefix, [last], sep);
  }

  /** Each top-level operation on the path of well-formed segments is its descent on the
      segments' texts. */
  lemma BridgeGet(doc: Doc, segs: seq<Seg>, sep: char)
    requires segs != [] && AllWellFormed(segs, sep)
    ensures Get(doc, PathOf(segs, sep), sep) == GetLevels(doc, Texts(segs), PathOf(segs, sep), sep)
  {
    TextsAreFragments(segs, sep);
    ReEntryGet(doc, Texts(segs), sep);
  }

  lemma BridgeDelete(doc: Doc, segs: seq<Seg>, sep: char)
    requires segs != [] && AllWellFormed(segs, sep)
    ensures Delete(doc, PathOf(segs, sep), sep) == DeleteChecked(doc, Texts(segs), PathOf(segs, sep), sep)
  {
    TextsAreFragments(segs, sep);
    ReEntryDelete(doc, Texts(segs), sep);
  }

  lemma BridgeAdd(doc: Doc, segs: seq<Seg>, sep: char, value: Value)
    requires segs != [] && AllWellFormed(segs, sep)
    ensures Add(doc, PathOf(segs, sep), sep, value) == AddChecked(doc, Texts(segs), PathOf(segs, sep), sep, value)
  {
    TextsAreFragments(segs, sep);
    ReEntryAdd(doc, Texts(segs), sep, value);
  }

  lemma BridgeUpdate(doc: Doc, segs: seq<Seg>, sep: char, value: Value)
    requires segs != [] && AllWellFormed(segs, sep)
    ensures Update(doc, PathOf(segs, sep), sep, value) == UpdateChecked(doc, Texts(segs), PathOf(segs, sep), sep, value)
  {
    TextsAreFragments(segs, sep);
    ReEntryUpdate(doc, Texts(segs), sep, value);
  }

  /** GetProperty on a path whose prefix leads through mappings reads the last segment in
      the mapping reached. */
  lemma GetBelow(doc: Doc, prefix: seq<Seg>, last: Seg, sep: char)
    requires AllWellFormed(prefix + [last], sep)
    requires FindMap(doc, prefix).Some?
    ensures Get(doc, PathOf(prefix + [last], sep), sep) == Resolve(FindMap(doc, prefix).value, [last], sep)
  {
    BridgeGet(doc, prefix + [last], sep);
    LastStep(doc, prefix, last, sep);
  }

  // ---------------------------------------------------------------------
  // The descents, characterised
  // ---------------------------------------------------------------------

  /** AddCheckedAt for the empty prefix: the last segment is added to the document. */
  lemma AddCheckedLast(data: Doc, prefix: seq<Seg>, last: Seg, sep: char, value: Value)
    requires prefix == [] && AllWellFormed(prefix + [last], sep)
    requires Slot(data, last).None?
    ensures AddChecked(data, Texts(prefix + [last]), PathOf(prefix + [last], sep), sep, value)
            == Outcome(PutMap(data, prefix, AddSlot(FindMap(data, prefix).value, last, value)), None)
  {
    Step(prefix, last, sep);
    LastStep(data, prefix, last, sep);
    var texts := Texts(prefix + [last]);
    var path := PathOf(prefix + [last], sep);
    var r := AddChecked(data, texts, path, sep, value);
    assert r == AddLevels(data, texts, path, sep, value);
    if !(last.Indexed? && last.name in data && data[last.name].Arr?) {
      assert r == AddRest(data, last.name, [], path, sep, value);
    }
  }

  /** UpdateCheckedAt for the empty prefix, when GET finds the last segment. */
  lemma UpdateCheckedLast(data: Doc, prefix: seq<Seg>, last: Seg, sep: char, value: Value)
    requires prefix == [] && AllWellFormed(prefix + [last], sep)
    requires Slot(data, last).Some?
    ensures UpdateChecked(data, Texts(prefix + [last]), PathOf(prefix + [last], sep), sep, value)
            == Outcome(PutMap(data, prefix, UpdatedSlot(FindMap(data, prefix).value, last, value)), None)
  {
    Step(prefix, last, sep);
    LastStep(data, prefix, last, sep);
    var texts := Texts(prefix + [last]);
    var path := PathOf(prefix + [last], sep);
    var r := UpdateChecked(data, texts, path, sep, value);
    assert r == UpdateLevels(data, texts, path, sep, value);
    if last.Plain? {
      assert r == UpdateRest(data, last.name, [], path, sep, value);
    }
  }

  /** AddProperty below a prefix through mappings, when GET finds nothing at the last
      segment: the mapping reached is changed by AddSlot and nothing else changes. */
  lemma {:induction false} AddCheckedAt(data: Doc, prefix: seq<Seg>, last: Seg, sep: char, value: Value)
    requires AllWellFormed(prefix + [last], sep)
    requires FindMap(data, prefix).Some? && Slot(FindMap(data, prefix).value, last).None?
    ensures AddChecked(data, Texts(prefix + [last]), PathOf(prefix + [last], sep), sep, value)
            == Outcome(PutMap(data, prefix, AddSlot(FindMap(data, prefix).value, last, value)), None)
    decreases |prefix|
  {
    if prefix == [] {
      AddCheckedLast(data, prefix, last, sep, value);
    } else {
      Step(prefix, last, sep);
      LastStep(data, prefix, last, sep);
      var texts := Texts(prefix + [last]);
      var path := PathOf(prefix + [last], sep);
      var s := prefix[0];
      var g := Slot(data, s).value.fields;
      var tail := texts[1..];
      assert FindMap(g, prefix[1..]) == FindMap(data, prefix);
      AddCheckedAt(g, prefix[1..], last, sep, value);
      var nested := AddChecked(g, tail, Join(tail, sep), sep, value);
      assert nested == Outcome(PutMap(g, prefix[1..], AddSlot(FindMap(data, prefix).value, last, value)), None);
      var r := AddChecked(data, texts, path, sep, value);
      assert r == AddLevels(data, texts, path, sep, value);
      if s.Indexed? {
        var items := data[s.name].items;
        assert r == Outcome(data[s.name := Arr(items[s.index := Obj(nested.data)])], nested.err);
        assert PutMap(data, prefix, AddSlot(FindMap(data, prefix).value, last, value)) == data[s.name := Arr(items[s.index := Obj(nested.data)])];
      } else {
        assert r == AddRest(data, s.name, tail, path, sep, value);
        assert r == Outcome(data[s.name := Obj(nested.data)], nested.err);
        assert PutMap(data, prefix, AddSlot(FindMap(data, prefix).value, last, value)) == data[s.name := Obj(nested.data)];
      }
    }
  }

  /** UpdateProperty below a prefix through mappings: the mapping reached is changed by
      UpdateSlot when GET finds the last segment, by AddSlot otherwise. */
  lemma {:induction false} UpdateCheckedAt(data: Doc, prefix: seq<Seg>, last: Seg, sep: char, value: Value)
    requires AllWellFormed(prefix + [last], sep)
    requires FindMap(data, prefix).Some?
    ensures UpdateChecked(data, Texts(prefix + [last]), PathOf(prefix + [last], sep), sep, value)
            == Outcome(PutMap(data, prefix, UpdatedSlot(FindMap(data, prefix).value, last, value)), None)
    decreases |prefix|
  {
    var f := FindMap(data, prefix).value;
    if Slot(f, last).None? {
      LastStep(data, prefix, last, sep);
      AddCheckedAt(data, prefix, last, sep, value);
    } else if prefix == [] {
      UpdateCheckedLast(data, prefix, last, sep, value);
    } else {
      Step(prefix, last, sep);
      LastStep(data, prefix, last, sep);
      var s := prefix[0];
      var g := Slot(data, s).value.fields;
      var texts := Texts(prefix + [last]);
      var path := PathOf(prefix + [last], sep);
      var tail := texts[1..];
      assert FindMap(g, prefix[1..]) == FindMap(data, prefix);
      UpdateCheckedAt(g, prefix[1..], last, sep, value);
      var nested := UpdateChecked(g, tail, Join(tail, sep), sep, value);
      assert nested == Outcome(PutMap(g, prefix[1..], UpdatedSlot(f, last, value)), None);
      var r := UpdateChecked(data, texts, path, sep, value);
      assert r == UpdateLevels(data, texts, path, sep, value);
      if s.Indexed? {
        var items := data[s.name].items;
        assert r == Outcome(data[s.name := Arr(items[s.index := Obj(nested.data)])], nested.err);
      } else {
        assert r == UpdateRest(data, s.name, tail, path, sep, value);
        assert r == Outcome(data[s.name := Obj(nested.data)], nested.err);
      }
    }
  }

  /** DeleteCheckedAt for the empty prefix: the last segment is deleted from the document. */
  lemma DeleteCheckedLast(data: Doc, prefix: seq<Seg>, last: Seg, sep: char)
    requires prefix == [] && AllWellFormed(prefix + [last], sep)
    requires Slot(data, last).Some?
    ensures DeleteChecked(data, Texts(prefix + [last]), PathOf(prefix + [last], sep), sep)
            == Outcome(PutPruned(data, prefix, DeleteSlot(FindMap(data, prefix).value, last)), None)
  {
    Step(prefix, last, sep);
    LastStep(data, prefix, last, sep);
    var texts := Texts(prefix + [last]);
    var path := PathOf(prefix + [last], sep);
    var r := DeleteChecked(data, texts, path, sep);
    assert r == DeleteLevels(data, texts, path, sep);
    if last.Plain? {
      assert r == DeleteRest(data, last.name, [], path, sep);
    }
  }

  /** DeleteProperty below a prefix through mappings, when GET finds the last segment: the
      mapping reached is changed by DeleteSlot, and a sequence element it empties is
      removed from its sequence. */
  lemma {:induction false} DeleteCheckedAt(data: Doc, prefix: seq<Seg>, last: Seg, sep: char)
    requires AllWellFormed(prefix + [last], sep)
    requires FindMap(data, prefix).Some? && Slot(FindMap(data, prefix).value, last).Some?
    ensures DeleteChecked(data, Texts(prefix + [last]), PathOf(prefix + [last], sep), sep)
            == Outcome(PutPruned(data, prefix, DeleteSlot(FindMap(data, prefix).value, last)), None)
    decreases |prefix|
  {
    if prefix == [] {
      DeleteCheckedLast(data, prefix, last, sep);
    } else {
      Step(prefix, last, sep);
      LastStep(data, prefix, last, sep);
      var texts := Texts(prefix + [last]);
      var path := PathOf(prefix + [last], sep);
      var s := prefix[0];
      var g := Slot(data, s).value.fields;
      var tail := texts[1..];
      assert FindMap(g, prefix[1..]) == FindMap(data, prefix);
      DeleteCheckedAt(g, prefix[1..], last, sep);
      var nested := DeleteChecked(g, tail, Join(tail, sep), sep);
      assert nested == Outcome(PutPruned(g, prefix[1..], DeleteSlot(FindMap(data, prefix).value, last)), None);
      var r := DeleteChecked(data, texts, path, sep);
      assert r == DeleteLevels(data, texts, path, sep);
      if s.Indexed? {
        var items := data[s.name].items;
        var rebuilt := if |nested.data| == 0 then Without(items, s.index) else items[s.index := Obj(nested.data)];
        assert r == Outcome(data[s.name := Arr(rebuilt)], None);
      } else {
        assert r == DeleteRest(data, s.name, tail, path, sep);
        assert r == Outcome(data[s.name := Obj(nested.data)], None);
      }
    }
  }

  // ---------------------------------------------------------------------
  // GetProperty
  // ---------------------------------------------------------------------

  /** The separator alone, and the empty path, address the whole document. */
  lemma GetRoot(doc: Doc, sep: char)
    ensures Get(doc, [sep], sep) == Ok(Obj(doc))
    ensures Get(doc, "", sep) == Ok(Obj(doc))
  {
    NoLevels([sep], sep);
  }

  /** Any other path made of separators only has no levels and names nothing. */
  lemma GetOnlySeparators(doc: Doc, path: string, sep: char)
    requires path != "" && path != [sep]
    requires forall i :: 0 <= i < |path| ==> path[i] == sep
    ensures Get(doc, path, sep) == Err(NotExist(path))
  {
    NoLevels(path, sep);
  }

  /** A value reached through mappings is what GetProperty returns for its path. */
  lemma GetFound(doc: Doc, segs: seq<Seg>, sep: char)
    requires segs != [] && AllWellFormed(segs, sep)
    requires Find(doc, segs).Some?
    ensures Get(doc, PathOf(segs, sep), sep) == Ok(Find(doc, segs).value)
  {
    GetResolve(doc, segs, sep);
    FindResolve(doc, segs, sep);
  }

  /** Below a value that is neither a mapping nor null, GetProperty stops and returns a
      one-entry mapping from the last name it resolved to that value, whatever follows. */
  lemma GetBelowLeaf(doc: Doc, prefix: seq<Seg>, last: Seg, rest: seq<Seg>, sep: char)
    requires rest != [] && AllWellFormed(prefix + [last] + rest, sep)
    requires Find(doc, prefix + [last]).Some?
    requires !Find(doc, prefix + [last]).value.Obj? && !Find(doc, prefix + [last]).value.Null?
    ensures Get(doc, PathOf(prefix + [last] + rest, sep), sep) == Ok(Obj(map[last.name := Find(doc, prefix + [last]).value]))
  {
    FindHasPrefix(doc, prefix, last);
    assert prefix + [last] + rest == prefix + ([last] + rest);
    GetResolve(doc, prefix + [last] + rest, sep);
    ResolveBelow(doc, prefix, [last] + rest, sep);
    assert ([last] + rest)[1..] == rest;
  }

  /** Below a null value, GetProperty reports the path that remains from there, not the
      whole path. */
  lemma GetBelowNull(doc: Doc, prefix: seq<Seg>, last: Seg, rest: seq<Seg>, sep: char)
    requires rest != [] && AllWellFormed(prefix + [last] + rest, sep)
    requires Find(doc, prefix + [last]) == Some(Null)
    ensures Get(doc, PathOf(prefix + [last] + rest, sep), sep) == Err(NotExist(PathOf([last] + rest, sep)))
  {
    FindHasPrefix(doc, prefix, last);
    assert prefix + [last] + rest == prefix + ([last] + rest);
    GetResolve(doc, prefix + [last] + rest, sep);
    ResolveBelow(doc, prefix, [last] + rest, sep);
    assert ([last] + rest)[1..] == rest;
  }

  // ---------------------------------------------------------------------
  // AddProperty
  // ---------------------------------------------------------------------

  /** The whole document always exists, so adding at the root fails and changes nothing. */
  lemma AddRoot(doc: Doc, sep: char, value: Value)
    ensures Add(doc, [sep], sep, value) == Outcome(doc, Some(AlreadyExists([sep])))
    ensures Add(doc, "", sep, value) == Outcome(doc, Some(AlreadyExists("")))
  {
    GetRoot(doc, sep);
  }

  /** AddProperty refuses a path GET resolves and leaves the document alone; otherwise it
      changes the mapping the prefix leads to by AddSlot and rebuilds the document. */
  lemma AddAt(doc: Doc, prefix: seq<Seg>, last: Seg, sep: char, value: Value)
    requires AllWellFormed(prefix + [last], sep)
    requires FindMap(doc, prefix).Some?
    ensures Add(doc, PathOf(prefix + [last], sep), sep, value)
            == if Slot(FindMap(doc, prefix).value, last).Some?
               then Outcome(doc, Some(AlreadyExists(PathOf(prefix + [last], sep))))
               else Outcome(PutMap(doc, prefix, AddSlot(FindMap(doc, prefix).value, last, value)), None)
  {
    BridgeAdd(doc, prefix + [last], sep, value);
    LastStep(doc, prefix, last, sep);
    if Slot(FindMap(doc, prefix).value, last).None? {
      AddCheckedAt(doc, prefix, last, sep, value);
    }
  }

  /** After adding a missing key, or a value at the end of a sequence, GetProperty on the
      same path returns the value added. */
  lemma AddThenGet(doc: Doc, prefix: seq<Seg>, last: Seg, sep: char, value: Value)
    requires AllWellFormed(prefix + [last], sep)
    requires FindMap(doc, prefix).Some? && Slot(FindMap(doc, prefix).value, last).None?
    requires last.Plain? || (last.name in FindMap(doc, prefix).value && FindMap(doc, prefix).value[last.name].Arr?
                             && last.index == |FindMap(doc, prefix).value[last.name].items|)
    ensures Add(doc, PathOf(prefix + [last], sep), sep, value).err == None
    ensures Get(Add(doc, PathOf(prefix + [last], sep), sep, value).data, PathOf(prefix + [last], sep), sep) == Ok(value)
  {
    var f := FindMap(doc, prefix).value;
    var g := AddSlot(f, last, value);
    AddAt(doc, prefix, last, sep, value);
    PutMapThenFindMap(doc, prefix, g);
    GetBelow(PutMap(doc, prefix, g), prefix, last, sep);
  }

  /** Adding the same path a second time is refused and changes nothing. */
  lemma AddTwice(doc: Doc, prefix: seq<Seg>, last: Seg, sep: char, value: Value, other: Value)
    requires AllWellFormed(prefix + [last], sep)
    requires FindMap(doc, prefix).Some? && Slot(FindMap(doc, prefix).value, last).None?
    requires last.Plain? || (last.name in FindMap(doc, prefix).value && FindMap(doc, prefix).value[last.name].Arr?
                             && last.index == |FindMap(doc, prefix).value[last.name].items|)
    ensures var once := Add(doc, PathOf(prefix + [last], sep), sep, value).data;
            Add(once, PathOf(prefix + [last], sep), sep, other)
            == Outcome(once, Some(AlreadyExists(PathOf(prefix + [last], sep))))
  {
    AddThenGet(doc, prefix, last, sep, value);
  }

  /** Adding at an index of a property that does not exist sets the property itself to the
      value, not a sequence holding it, so GetProperty on the same path indexes into the
      value: a value that is not a sequence is reported as not an array. */
  lemma AddIndexedMissing(doc: Doc, prefix: seq<Seg>, name: string, index: nat, sep: char, value: Value)
    requires AllWellFormed(prefix + [Indexed(name, index)], sep)
    requires FindMap(doc, prefix).Some? && name !in FindMap(doc, prefix).value
    ensures var f := FindMap(doc, prefix).value;
            Add(doc, PathOf(prefix + [Indexed(name, index)], sep), sep, value)
            == Outcome(PutMap(doc, prefix, f[name := value]), None)
    ensures !value.Arr? ==>
            Get(Add(doc, PathOf(prefix + [Indexed(name, index)], sep), sep, value).data,
                PathOf(prefix + [Indexed(name, index)], sep), sep) == Err(NotAnArray(name))
    ensures value.Arr? && index >= |value.items| ==>
            Get(Add(doc, PathOf(prefix + [Indexed(name, index)], sep), sep, value).data,
                PathOf(prefix + [Indexed(name, index)], sep), sep) == Err(OutOfRange(name, |value.items|))
    ensures value.Arr? && index < |value.items| ==>
            Get(Add(doc, PathOf(prefix + [Indexed(name, index)], sep), sep, value).data,
                PathOf(prefix + [Indexed(name, index)], sep), sep) == Ok(value.items[index])
  {
    var last := Indexed(name, index);
    var g := FindMap(doc, prefix).value[name := value];
    AddAt(doc, prefix, last, sep, value);
    PutMapThenFindMap(doc, prefix, g);
    GetBelow(PutMap(doc, prefix, g), prefix, last, sep);
  }

  /** When GET fails below a sequence property that is not a sequence, is too short, or
      holds null at the index, AddProperty stores the value under the whole path string
      as a single key of the document. */
  lemma AddWholePathKey(doc: Doc, name: string, index: nat, rest: seq<Seg>, sep: char, value: Value)
    requires rest != [] && AllWellFormed([Indexed(name, index)] + rest, sep)
    requires name in doc && !doc[name].Obj? && !doc[name].Null?
    requires !doc[name].Arr? || index >= |doc[name].items| || doc[name].items[index].Null?
    ensures var path := PathOf([Indexed(name, index)] + rest, sep);
            Add(doc, path, sep, value) == Outcome(doc[path := value], None)
  {
    var segs := [Indexed(name, index)] + rest;
    var path := PathOf(segs, sep);
    var texts := Texts(segs);
    BridgeAdd(doc, segs, sep, value);
    assert GetLevels(doc, texts, path, sep).Err? by {
      GetLevelsResolve(doc, segs, sep);
      WholePathUnresolved(doc, segs, name, index, sep);
    }
    TextsAreFragments(segs, sep);
    WholePathLevels(doc, texts, path, name, index, sep, value);
  }

  /** GET fails on a path whose indexed head names a value that is not a sequence, a
      sequence too short, or a null element. */
  lemma WholePathUnresolved(doc: Doc, segs: seq<Seg>, name: string, index: nat, sep: char)
    requires |segs| >= 2 && segs[0] == Indexed(name, index)
    requires name in doc && !doc[name].Obj? && !doc[name].Null?
    requires !doc[name].Arr? || index >= |doc[name].items| || doc[name].items[index].Null?
    ensures Resolve(doc, segs, sep).Err?
  {
  }

  /** The levels AddProperty walks for such a path end in the key made of the whole path. */
  lemma WholePathLevels(doc: Doc, texts: seq<string>, path: string, name: string, index: nat, sep: char, value: Value)
    requires |texts| >= 2 && ParseSegment(texts[0]) == Indexed(name, index)
    requires name in doc && !doc[name].Obj? && !doc[name].Null?
    requires !doc[name].Arr? || index >= |doc[name].items| || doc[name].items[index].Null?
    requires GetLevels(doc, texts, path, sep).Err?
    ensures AddChecked(doc, texts, path, sep, value) == Outcome(doc[path := value], None)
  {
    assert AddChecked(doc, texts, path, sep, value) == AddLevels(doc, texts, path, sep, value);
    assert AddLevels(doc, texts, path, sep, value) == AddRest(doc, name, texts[1..], path, sep, value);
  }

  // ---------------------------------------------------------------------
  // UpdateProperty
  // ---------------------------------------------------------------------

  /** Updating the root does not replace the document: it stores the value under the key
      made of the separator alone. */
  lemma UpdateRoot(doc: Doc, sep: char, value: Value)
    ensures Update(doc, [sep], sep, value) == Outcome(doc[[sep] := value], None)
    ensures Update(doc, "", sep, value) == Outcome(doc[[sep] := value], None)
  {
    GetRoot(doc, sep);
  }

  /** UpdateProperty changes the mapping the prefix leads to by UpdateSlot where GET finds
      the last segment, by AddSlot where it does not, and never fails there. */
  lemma UpdateAt(doc: Doc, prefix: seq<Seg>, last: Seg, sep: char, value: Value)
    requires AllWellFormed(prefix + [last], sep)
    requires FindMap(doc, prefix).Some?
    ensures Update(doc, PathOf(prefix + [last], sep), sep, value)
            == Outcome(PutMap(doc, prefix, UpdatedSlot(FindMap(doc, prefix).value, last, value)), None)
  {
    BridgeUpdate(doc, prefix + [last], sep, value);
    UpdateCheckedAt(doc, prefix, last, sep, value);
  }

  /** After an update of a key, of an element, or at the end of a sequence, GetProperty on
      the same path returns the new value. */
  lemma UpdateThenGet(doc: Doc, prefix: seq<Seg>, last: Seg, sep: char, value: Value)
    requires AllWellFormed(prefix + [last], sep)
    requires FindMap(doc, prefix).Some?
    requires last.Plain? || (last.name in FindMap(doc, prefix).value && FindMap(doc, prefix).value[last.name].Arr?
                             && last.index <= |FindMap(doc, prefix).value[last.name].items|)
    ensures Get(Update(doc, PathOf(prefix + [last], sep), sep, value).data, PathOf(prefix + [last], sep), sep) == Ok(value)
  {
    var f := FindMap(doc, prefix).value;
    var g := UpdatedSlot(f, last, value);
    UpdateAt(doc, prefix, last, sep, value);
    PutMapThenFindMap(doc, prefix, g);
    GetBelow(PutMap(doc, prefix, g), prefix, last, sep);
  }

  /** Writing the value a path already holds changes nothing. */
  lemma UpdateIdempotent(doc: Doc, segs: seq<Seg>, sep: char)
    requires segs != [] && AllWellFormed(segs, sep)
    requires Find(doc, segs).Some?
    ensures Update(doc, PathOf(segs, sep), sep, Find(doc, segs).value) == Outcome(doc, None)
  {
    var prefix := segs[..|segs| - 1];
    var last := segs[|segs| - 1];
    assert segs == prefix + [last];
    FindHasPrefix(doc, prefix, last);
    UpdateAt(doc, prefix, last, sep, Find(doc, segs).value);
    UpdateSame(FindMap(doc, prefix).value, last);
    PutMapSame(doc, prefix);
  }

  /** Writing the value a segment already reads leaves the mapping as it was. */
  lemma UpdateSame(f: Doc, last: Seg)
    requires Slot(f, last).Some?
    ensures UpdatedSlot(f, last, Slot(f, last).value) == f
  {
    if last.Indexed? {
      assert Replaced(f[last.name].items, last.index, Slot(f, last).value) == f[last.name].items;
    }
  }

  /** Below a value that is neither a mapping nor null, UpdateProperty stores the value
      under the whole path string as a single key, so GetProperty on that path still
      returns the one-entry mapping of the old value. */
  lemma UpdateBelowLeaf(doc: Doc, name: string, rest: seq<Seg>, sep: char, value: Value)
    requires rest != [] && AllWellFormed([Plain(name)] + rest, sep)
    requires name in doc && !doc[name].Obj? && !doc[name].Null?
    ensures var path := PathOf([Plain(name)] + rest, sep);
            Update(doc, path, sep, value) == Outcome(doc[path := value], None)
    ensures var path := PathOf([Plain(name)] + rest, sep);
            Get(Update(doc, path, sep, value).data, path, sep) == Ok(Obj(map[name := doc[name]]))
  {
    var segs := [Plain(name)] + rest;
    var path := PathOf(segs, sep);
    BridgeUpdate(doc, segs, sep, value);
    GetBelowLeaf(doc, [], Plain(name), rest, sep);
    Step([], Plain(name), sep);
    TextsAreFragments(segs, sep);
    var texts := Texts(segs);
    assert ParseSegment(texts[0]) == Plain(name);
    assert UpdateLevels(doc, texts, path, sep, value) == UpdateRest(doc, name, texts[1..], path, sep, value);
    JoinNotRoot(texts, sep);
    assert |texts| > 1;
    assert sep in path by {
      assert path == texts[0] + [sep] + Join(texts[1..], sep);
      assert path[|texts[0]|] == sep;
    }
    assert name != path by {
      assert sep !in SegmentText(segs[0]);
    }
    var after := doc[path := value];
    assert [] + [Plain(name)] + rest == segs;
    GetBelowLeaf(after, [], Plain(name), rest, sep);
  }

  // ---------------------------------------------------------------------
  // DeleteProperty
  // ---------------------------------------------------------------------

  /** Deleting the root empties the document. */
  lemma DeleteRoot(doc: Doc, sep: char)
    ensures Delete(doc, [sep], sep) == Outcome(map[], None)
    ensures Delete(doc, "", sep) == Outcome(map[], None)
  {
    GetRoot(doc, sep);
  }

  /** DeleteProperty fails with GET's error where GET fails; otherwise it changes the
      mapping the prefix leads to by DeleteSlot, removing a sequence element whose mapping
      it empties. */
  lemma DeleteAt(doc: Doc, prefix: seq<Seg>, last: Seg, sep: char)
    requires AllWellFormed(prefix + [last], sep)
    requires FindMap(doc, prefix).Some?
    ensures Delete(doc, PathOf(prefix + [last], sep), sep)
            == if Slot(FindMap(doc, prefix).value, last).Some?
               then Outcome(PutPruned(doc, prefix, DeleteSlot(FindMap(doc, prefix).value, last)), None)
               else Outcome(doc, Some(Resolve(FindMap(doc, prefix).value, [last], sep).error))
  {
    BridgeDelete(doc, prefix + [last], sep);
    LastStep(doc, prefix, last, sep);
    if Slot(FindMap(doc, prefix).value, last).Some? {
      DeleteCheckedAt(doc, prefix, last, sep);
    }
  }

  /** Deleting a key removes exactly that key from its mapping, so GetProperty on the path
      then reports it missing, unless the mapping emptied was a sequence element. */
  lemma DeleteThenGet(doc: Doc, prefix: seq<Seg>, key: string, sep: char)
    requires AllWellFormed(prefix + [Plain(key)], sep)
    requires FindMap(doc, prefix).Some? && key in FindMap(doc, prefix).value
    requires prefix == [] || prefix[|prefix| - 1].Plain? || |FindMap(doc, prefix).value - {key}| > 0
    ensures Delete(doc, PathOf(prefix + [Plain(key)], sep), sep)
            == Outcome(PutMap(doc, prefix, FindMap(doc, prefix).value - {key}), None)
    ensures Get(Delete(doc, PathOf(prefix + [Plain(key)], sep), sep).data, PathOf(prefix + [Plain(key)], sep), sep)
            == Err(NotExist(key))
  {
    var last := Plain(key);
    var g := FindMap(doc, prefix).value - {key};
    DeleteAt(doc, prefix, last, sep);
    PrunedIsPut(doc, prefix, g);
    PutMapThenFindMap(doc, prefix, g);
    GetBelow(PutMap(doc, prefix, g), prefix, last, sep);
  }

  /** Below a value that is neither a mapping nor null, DeleteProperty removes the key
      spelled by the whole path string, not the value, so GetProperty on that path still
      returns the one-entry mapping of the value. */
  lemma DeleteBelowLeaf(doc: Doc, name: string, rest: seq<Seg>, sep: char)
    requires rest != [] && AllWellFormed([Plain(name)] + rest, sep)
    requires name in doc && !doc[name].Obj? && !doc[name].Null?
    ensures var path := PathOf([Plain(name)] + rest, sep);
            Delete(doc, path, sep) == Outcome(doc - {path}, None)
    ensures var path := PathOf([Plain(name)] + rest, sep);
            Get(Delete(doc, path, sep).data, path, sep) == Ok(Obj(map[name := doc[name]]))
  {
    var segs := [Plain(name)] + rest;
    var path := PathOf(segs, sep);
    BridgeDelete(doc, segs, sep);
    BridgeGet(doc, segs, sep);
    assert [] + [Plain(name)] + rest == segs;
    GetBelowLeaf(doc, [], Plain(name), rest, sep);
    TextsAreFragments(segs, sep);
    var texts := Texts(segs);
    assert ParseSegment(texts[0]) == Plain(name);
    JoinNotRoot(texts, sep);
    assert |texts| > 1;
    assert DeleteChecked(doc, texts, path, sep) == DeleteRest(doc, name, texts[1..], path, sep);
    assert sep in path by {
      assert path == texts[0] + [sep] + Join(texts[1..], sep);
      assert path[|texts[0]|] == sep;
    }
    assert name != path by {
      assert sep !in SegmentText(segs[0]);
    }
    GetBelowLeaf(doc - {path}, [], Plain(name), rest, sep);
  }

  /** Deleting an element removes it from its sequence and shifts the later elements down
      by one. */
  lemma DeleteElement(doc: Doc, prefix: seq<Seg>, name: string, index: nat, sep: char)
    requires AllWellFormed(prefix + [Indexed(name, index)], sep)
    requires FindMap(doc, prefix).Some? && Slot(FindMap(doc, prefix).value, Indexed(name, index)).Some?
    ensures var f := FindMap(doc, prefix).value;
            Delete(doc, PathOf(prefix + [Indexed(name, index)], sep), sep)
            == Outcome(PutMap(doc, prefix, f[name := Arr(Without(f[name].items, index))]), None)
  {
    var f := FindMap(doc, prefix).value;
    var g := f[name := Arr(Without(f[name].items, index))];
    DeleteAt(doc, prefix, Indexed(name, index), sep);
    ShiftedSlot(f, name, index, sep);
    PrunedIsPut(doc, prefix, g);
  }

  /** After an element is deleted, the same path names the next element, or is out of
      range when the deleted element was the last. */
  lemma DeleteElementThenGet(doc: Doc, prefix: seq<Seg>, name: string, index: nat, sep: char)
    requires AllWellFormed(prefix + [Indexed(name, index)], sep)
    requires FindMap(doc, prefix).Some? && Slot(FindMap(doc, prefix).value, Indexed(name, index)).Some?
    ensures var items := FindMap(doc, prefix).value[name].items;
            Get(Delete(doc, PathOf(prefix + [Indexed(name, index)], sep), sep).data, PathOf(prefix + [Indexed(name, index)], sep), sep)
            == if index + 1 < |items| then Ok(items[index + 1]) else Err(OutOfRange(name, |items| - 1))
  {
    var f := FindMap(doc, prefix).value;
    var g := f[name := Arr(Without(f[name].items, index))];
    DeleteElement(doc, prefix, name, index, sep);
    ShiftedSlot(f, name, index, sep);
    PutMapThenFindMap(doc, prefix, g);
    GetBelow(PutMap(doc, prefix, g), prefix, Indexed(name, index), sep);
  }

  /** Removing an element from a sequence of f: what the same segment then reads. */
  lemma ShiftedSlot(f: Doc, name: string, index: nat, sep: char)
    requires Slot(f, Indexed(name, index)).Some?
    ensures var g := f[name := Arr(Without(f[name].items, index))];
            DeleteSlot(f, Indexed(name, index)) == g && |g| > 0
            && Resolve(g, [Indexed(name, index)], sep)
               == if index + 1 < |f[name].items| then Ok(f[name].items[index + 1])
                  else Err(OutOfRange(name, |f[name].items| - 1))
  {
    var g := f[name := Arr(Without(f[name].items, index))];
    assert name in g;
  }

  /** Deleting the only key of a mapping that is a sequence element removes the element
      itself, so the path then names whatever element moved into its place. */
  lemma DeletePrunesElement(doc: Doc, name: string, index: nat, key: string, sep: char)
    requires AllWellFormed([Indexed(name, index), Plain(key)], sep)
    requires name in doc && doc[name].Arr? && index < |doc[name].items|
    requires doc[name].items[index].Obj? && doc[name].items[index].fields.Keys == {key}
    ensures Delete(doc, PathOf([Indexed(name, index), Plain(key)], sep), sep)
            == Outcome(doc[name := Arr(Without(doc[name].items, index))], None)
  {
    var prefix := [Indexed(name, index)];
    var f := doc[name].items[index].fields;
    assert FindMap(doc, prefix) == Some(f);
    assert prefix + [Plain(key)] == [Indexed(name, index), Plain(key)];
    DeleteAt(doc, prefix, Plain(key), sep);
    assert (f - {key}).Keys == {};
    assert f - {key} == map[];
  }
}
