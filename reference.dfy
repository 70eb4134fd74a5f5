/**
 * A reference reading of paths, on segments rather than strings: what a
 * sequence of segments addresses in a document, and how a document is
 * rebuilt when one of its nested mappings is replaced. The properties of
 * the four operations are stated against these definitions.
 */
module Reference {
  import opened Values
  import opened Tokenizer
  import opened Resolver

  /** The value one segment names in a mapping, if any. */
  function Slot(m: Doc, s: Seg): Option<Value> {
    match s
    case Plain(k) => if k in m then Some(m[k]) else None
    case Indexed(k, i) => if k in m && m[k].Arr? && i < |m[k].items| then Some(m[k].items[i]) else None
  }

  /** GetProperty read on segments: the value, the one-entry mapping GET returns below a
      non-mapping value, or the error in the order GET checks for it. */
  function Resolve(m: Doc, segs: seq<Seg>, sep: char): Result<Value>
    requires segs != []
    decreases |segs|
  {
    var s := segs[0];
    var rest := segs[1..];
    if s.Indexed? && s.name !in m then Err(NotExist(s.name))
    else if s.Indexed? && !m[s.name].Arr? then Err(NotAnArray(s.name))
    else if s.Indexed? && s.index >= |m[s.name].items| then Err(OutOfRange(s.name, |m[s.name].items|))
    else if s.name !in m then Err(NotExist(s.name))
    else
      var v := if s.Indexed? then m[s.name].items[s.index] else m[s.name];
      if rest == [] then Ok(v)
      else match v
        case Obj(f) => Resolve(f, rest, sep)
        case Null => Err(NotExist(PathOf(segs, sep)))
        case _ => Ok(Obj(map[s.name := v]))
  }

  /** The value at a path that runs through mappings only. */
  function Find(m: Doc, segs: seq<Seg>): Option<Value>
    requires segs != []
    decreases |segs|
  {
    var slot := Slot(m, segs[0]);
    if slot.None? then None
    else if |segs| == 1 then slot
    else if slot.value.Obj? then Find(slot.value.fields, segs[1..])
    else None
  }

  /** The mapping a prefix of segments leads to (the document itself for no segment). */
  function FindMap(m: Doc, prefix: seq<Seg>): Option<Doc>
    decreases |prefix|
  {
    if prefix == [] then Some(m)
    else
      var slot := Slot(m, prefix[0]);
      if slot.Some? && slot.value.Obj? then FindMap(slot.value.fields, prefix[1..]) else None
  }

  /** The document with the mapping at prefix replaced by g, every mapping and sequence on
      the way rebuilt around it. */
  function PutMap(m: Doc, prefix: seq<Seg>, g: Doc): Doc
    decreases |prefix|
  {
    if prefix == [] then g
    else
      var s := prefix[0];
      var slot := Slot(m, s);
      if slot.Some? && slot.value.Obj? then
        var inner := Obj(PutMap(slot.value.fields, prefix[1..], g));
        match s
        case Plain(k) => m[k := inner]
        case Indexed(k, i) => m[k := Arr(m[k].items[i := inner])]
      else m
  }

  // ---------------------------------------------------------------------
  // GET agrees with the reference reading
  // ---------------------------------------------------------------------

  lemma {:induction false} GetLevelsResolve(data: Doc, segs: seq<Seg>, sep: char)
    requires segs != [] && AllWellFormed(segs, sep)
    ensures GetLevels(data, Texts(segs), PathOf(segs, sep), sep) == Resolve(data, segs, sep)
    decreases |segs|
  {
    TextsAreFragments(segs, sep);
    var texts := Texts(segs);
    assert ParseSegment(texts[0]) == segs[0];
    assert texts[1..] == Texts(segs[1..]);
    if |segs| == 1 {
      assert PathOf(segs, sep) == SegmentText(segs[0]);
    } else {
      var s := segs[0];
      assert AllWellFormed(segs[1..], sep) by {
        forall j | 0 <= j < |segs[1..]| ensures WellFormed(segs[1..][j]) && sep !in SegmentText(segs[1..][j]) {
          assert segs[1..][j] == segs[j + 1];
        }
      }
      if s.name in data && (s.Plain? || (data[s.name].Arr? && s.index < |data[s.name].items|)) {
        var v := if s.Indexed? then data[s.name].items[s.index] else data[s.name];
        if v.Obj? {
          GetLevelsResolve(v.fields, segs[1..], sep);
        }
      }
    }
  }

  /** GetProperty on the path of well-formed segments is the reference reading. */
  lemma GetResolve(doc: Doc, segs: seq<Seg>, sep: char)
    requires segs != [] && AllWellFormed(segs, sep)
    ensures Get(doc, PathOf(segs, sep), sep) == Resolve(doc, segs, sep)
  {
    PathLevels(segs, sep);
    GetLevelsResolve(doc, segs, sep);
  }

  /** A path through mappings resolves to the value found there. */
  lemma {:induction false} FindResolve(m: Doc, segs: seq<Seg>, sep: char)
    requires segs != [] && Find(m, segs).Some?
    ensures Resolve(m, segs, sep) == Ok(Find(m, segs).value)
    decreases |segs|
  {
    if |segs| > 1 {
      FindResolve(Slot(m, segs[0]).value.fields, segs[1..], sep);
    }
  }

  // ---------------------------------------------------------------------
  // Descending through a prefix
  // ---------------------------------------------------------------------

  lemma {:induction false} ResolveBelow(m: Doc, prefix: seq<Seg>, rest: seq<Seg>, sep: char)
    requires rest != [] && FindMap(m, prefix).Some?
    ensures Resolve(m, prefix + rest, sep) == Resolve(FindMap(m, prefix).value, rest, sep)
    ensures Find(m, prefix + rest) == Find(FindMap(m, prefix).value, rest)
    decreases |prefix|
  {
    if prefix != [] {
      var segs := prefix + rest;
      assert segs[0] == prefix[0];
      assert segs[1..] == prefix[1..] + rest;
      ResolveBelow(Slot(m, prefix[0]).value.fields, prefix[1..], rest, sep);
    } else {
      assert prefix + rest == rest;
    }
  }

  /** Writing a mapping at a prefix and reading the prefix back gives that mapping. */
  lemma {:induction false} PutMapThenFindMap(m: Doc, prefix: seq<Seg>, g: Doc)
    requires FindMap(m, prefix).Some?
    ensures FindMap(PutMap(m, prefix, g), prefix) == Some(g)
    decreases |prefix|
  {
    if prefix != [] {
      PutMapThenFindMap(Slot(m, prefix[0]).value.fields, prefix[1..], g);
    }
  }

  /** Writing back the mapping that is already there changes nothing. */
  lemma {:induction false} PutMapSame(m: Doc, prefix: seq<Seg>)
    requires FindMap(m, prefix).Some?
    ensures PutMap(m, prefix, FindMap(m, prefix).value) == m
    decreases |prefix|
  {
    if prefix != [] {
      var s := prefix[0];
      var f := Slot(m, s).value.fields;
      PutMapSame(f, prefix[1..]);
      if s.Indexed? {
        assert m[s.name].items[s.index := Obj(f)] == m[s.name].items;
      }
    }
  }

  /** Rebuilding along a non-empty prefix keeps the document's keys, and every key other
      than the first segment's name keeps its value. */
  lemma PutMapFrame(m: Doc, prefix: seq<Seg>, g: Doc)
    requires prefix != [] && FindMap(m, prefix).Some?
    ensures PutMap(m, prefix, g).Keys == m.Keys
    ensures forall k :: k in m && k != prefix[0].name ==> PutMap(m, prefix, g)[k] == m[k]
  {
  }

  // ---------------------------------------------------------------------
  // The last step of each mutator, on the mapping it acts in
  // ---------------------------------------------------------------------

  /** What DeleteProperty does to the mapping holding the last segment. */
  function DeleteSlot(f: Doc, last: Seg): Doc {
    match last
    case Plain(k) => f - {k}
    case Indexed(k, i) => if k in f && f[k].Arr? then f[k := Arr(Slices.Without(f[k].items, i))] else f
  }

  /** What AddProperty does to the mapping holding the last segment when GET found nothing
      there: a missing key is set; a sequence grows by the value when the index is at or
      past its end; a missing sequence name is set to the value itself. */
  function AddSlot(f: Doc, last: Seg, value: Value): Doc {
    match last
    case Plain(k) => if k in f then f else f[k := value]
    case Indexed(k, i) =>
      if k !in f then f[k := value]
      else if f[k].Arr? then f[k := Arr(Slices.Appended(f[k].items, i, value))]
      else f
  }

  /** What UpdateProperty does to the mapping holding the last segment when GET found a
      value there. */
  function UpdateSlot(f: Doc, last: Seg, value: Value): Doc {
    match last
    case Plain(k) => f[k := value]
    case Indexed(k, i) => if k in f && f[k].Arr? then f[k := Arr(Slices.Replaced(f[k].items, i, value))] else f
  }

  /** What UpdateProperty does to the mapping holding the last segment: it writes where
      GET finds a value and adds where it does not. */
  function UpdatedSlot(f: Doc, last: Seg, value: Value): Doc {
    if Slot(f, last).Some? then UpdateSlot(f, last, value) else AddSlot(f, last, value)
  }

  /** Like PutMap, except that a sequence element whose mapping has become empty is removed
      from its sequence instead of being written back. */
  function PutPruned(m: Doc, prefix: seq<Seg>, g: Doc): Doc
    decreases |prefix|
  {
    if prefix == [] then g
    else
      var s := prefix[0];
      var slot := Slot(m, s);
      if slot.Some? && slot.value.Obj? then
        var inner := PutPruned(slot.value.fields, prefix[1..], g);
        match s
        case Plain(k) => m[k := Obj(inner)]
        case Indexed(k, i) =>
          if |inner| == 0 then m[k := Arr(Slices.Without(m[k].items, i))]
          else m[k := Arr(m[k].items[i := Obj(inner)])]
      else m
  }

  /** Only the element whose own mapping was emptied is removed: when the emptied mapping is
      not directly a sequence element, or is not empty, nothing is pruned. */
  lemma {:induction false} PrunedIsPut(m: Doc, prefix: seq<Seg>, g: Doc)
    requires FindMap(m, prefix).Some?
    requires prefix == [] || prefix[|prefix| - 1].Plain? || |g| > 0
    ensures PutPruned(m, prefix, g) == PutMap(m, prefix, g)
    decreases |prefix|
  {
    if prefix != [] {
      var s := prefix[0];
      var f := Slot(m, s).value.fields;
      var rest := prefix[1..];
      assert rest != [] ==> rest[|rest| - 1] == prefix[|prefix| - 1];
      PrunedIsPut(f, rest, g);
      if rest != [] {
        PutMapFrame(f, rest, g);
        assert rest[0].name in f;
        assert rest[0].name in PutMap(f, rest, g);
      }
    }
  }

  /** A path through mappings passes through mappings at each of its prefixes. */
  lemma {:induction false} FindHasPrefix(m: Doc, prefix: seq<Seg>, last: Seg)
    requires Find(m, prefix + [last]).Some?
    ensures FindMap(m, prefix).Some?
    ensures Slot(FindMap(m, prefix).value, last) == Find(m, prefix + [last])
    decreases |prefix|
  {
    var segs := prefix + [last];
    if prefix != [] {
      assert segs[0] == prefix[0];
      assert segs[1..] == prefix[1..] + [last];
      FindHasPrefix(Slot(m, prefix[0]).value.fields, prefix[1..], last);
    } else {
      assert segs == [last];
    }
  }
}
