/**
 * The documents of gjm_test.go and what the four operations do to them.
 *
 * Each case is proved in three layers, from the general properties rather than
 * by unfolding the string-level definitions on the literal document:
 *   - a spelling lemma: the segments print as the path text of the test;
 *   - a lemma on the segments: the operation on the path of the segments,
 *     derived from a lemma of module Properties and the facts the reference
 *     functions give on the document;
 *   - the case itself, on the path text.
 */
module Scenarios {
  import opened Values
  import opened Tokenizer
  import opened Slices
  import opened Resolver
  import opened Reference
  import opened Properties

  // ---------------------------------------------------------------------
  // The documents
  // ---------------------------------------------------------------------

  /** setupDocument: mappings nested two deep around two integer sequences. */
  function Nested(): Doc {
    map["one" := Obj(map["two" := Obj(Two()), "four" := Obj(Five())])]
  }

  /** The mapping setupDocument's path one.two leads to. */
  function Two(): Doc {
    map["three" := Arr([Num(1), Num(2), Num(3)])]
  }

  /** The mapping setupDocument's path one.four leads to. */
  function Five(): Doc {
    map["five" := Arr([Num(11), Num(22), Num(33)])]
  }

  /** setupDocument_I: a sequence of one-entry mappings. */
  function Listed(): Doc {
    map["one" := Arr([Obj(map["map_a" := Arr([Num(1), Num(2), Num(3)])]),
                      Obj(map["map_b" := Arr([Num(4), Num(5), Num(6)])]),
                      Obj(map["map_c" := Arr([Num(7), Num(8), Num(9)])])])]
  }

  /** The elements of the inner sequences of setupDocument_II. */
  function Got(key: string, text: string): Value {
    Obj(map[key := Str(text)])
  }

  /** The last element of setupDocument_II's sequence. */
  function Fourth(): Value {
    Obj(map["three" := Arr([Obj(map["four" := Obj(map["five" := Str("six")])]),
                            Obj(map["seven" := Obj(map["eight" := Str("ten")])])])])
  }

  /** setupDocument_II: sequences of mappings holding sequences of mappings. */
  function Deep(): Doc {
    map["one" := Arr([Obj(map["two" := Arr([Got("three", "got three"), Got("four", "got four")])]),
                      Obj(map["two" := Arr([Got("five", "got five"), Got("six", "got six")])]),
                      Obj(map["two" := Arr([Got("seven", "got seven"), Got("eight", "got eight")])]),
                      Fourth()])]
  }

  /** A path of well-formed segments that prints as the given text. */
  predicate Spells(segs: seq<Seg>, path: string) {
    segs != [] && AllWellFormed(segs, '.') && PathOf(segs, '.') == path
  }

  // ---------------------------------------------------------------------
  // Printing short lists of segments
  // ---------------------------------------------------------------------

  lemma Texts1(x: Seg)
    ensures Texts([x]) == [SegmentText(x)]
  {
    assert [x][1..] == [];
  }

  lemma Texts2(x: Seg, y: Seg)
    ensures Texts([x, y]) == [SegmentText(x), SegmentText(y)]
  {
    Texts1(y);
    assert [x, y][1..] == [y];
  }

  lemma Texts3(x: Seg, y: Seg, z: Seg)
    ensures Texts([x, y, z]) == [SegmentText(x), SegmentText(y), SegmentText(z)]
  {
    Texts2(y, z);
    assert [x, y, z][1..] == [y, z];
  }

  lemma Texts4(w: Seg, x: Seg, y: Seg, z: Seg)
    ensures Texts([w, x, y, z]) == [SegmentText(w), SegmentText(x), SegmentText(y), SegmentText(z)]
  {
    Texts3(x, y, z);
    assert [w, x, y, z][1..] == [x, y, z];
  }

  lemma Join2(a: string, b: string)
    ensures Join([a, b], '.') == a + "." + b
  {
    assert [a, b][1..] == [b];
  }

  lemma Join3(a: string, b: string, c: string)
    ensures Join([a, b, c], '.') == a + "." + b + "." + c
  {
    Join2(b, c);
    assert [a, b, c][1..] == [b, c];
  }

  lemma Join4(a: string, b: string, c: string, d: string)
    ensures Join([a, b, c, d], '.') == a + "." + b + "." + c + "." + d
  {
    Join3(b, c, d);
    assert [a, b, c, d][1..] == [b, c, d];
  }

  lemma Path2(x: Seg, y: Seg)
    ensures PathOf([x, y], '.') == SegmentText(x) + "." + SegmentText(y)
  {
    Texts2(x, y);
    Join2(SegmentText(x), SegmentText(y));
  }

  lemma Path3(x: Seg, y: Seg, z: Seg)
    ensures PathOf([x, y, z], '.') == SegmentText(x) + "." + SegmentText(y) + "." + SegmentText(z)
  {
    Texts3(x, y, z);
    Join3(SegmentText(x), SegmentText(y), SegmentText(z));
  }

  lemma Path4(w: Seg, x: Seg, y: Seg, z: Seg)
    ensures PathOf([w, x, y, z], '.') == SegmentText(w) + "." + SegmentText(x) + "." + SegmentText(y) + "." + SegmentText(z)
  {
    Texts4(w, x, y, z);
    Join4(SegmentText(w), SegmentText(x), SegmentText(y), SegmentText(z));
  }

  /** The property names of the documents are words. */
  lemma Words()
    ensures IsWord("one") && IsWord("two") && IsWord("three") && IsWord("four")
    ensures IsWord("seven") && IsWord("eight") && IsWord("nine") && IsWord("map_c")
    ensures IsWord("a") && IsWord("b")
  {
  }

  /** An index segment with a one-digit index prints as name[d]. */
  lemma IndexText(name: string, d: nat, text: string)
    requires d < 10 && text == name + "[" + [Digits.DigitChar(d)] + "]"
    ensures SegmentText(Indexed(name, d)) == text
  {
  }

  /** The three-component paths of the cases, component by component. */
  lemma Dots3(a: string, b: string, c: string, path: string)
    requires (a == "one" && b == "two" && c == "four[0]" && path == "one.two.four[0]")
          || (a == "one[1]" && b == "two[1]" && c == "eight" && path == "one[1].two[1].eight")
          || (a == "one[2]" && b == "two[1]" && c == "eight" && path == "one[2].two[1].eight")
    ensures a + "." + b + "." + c == path
  {
    if a == "one" {
      assert a + "." + b == "one.two";
    } else if a == "one[1]" {
      assert a + "." + b == "one[1].two[1]";
    } else {
      assert a + "." + b == "one[2].two[1]";
    }
  }

  /** The four-component paths of the cases, component by component. */
  lemma Dots4(a: string, b: string, c: string, d: string, path: string)
    requires (a == "one[3]" && b == "three[0]" && c == "four" && d == "nine" && path == "one[3].three[0].four.nine")
          || (a == "one[3]" && b == "three[0]" && c == "seven" && d == "eight" && path == "one[3].three[0].seven.eight")
          || (a == "one[3]" && b == "three[1]" && c == "seven" && d == "eight" && path == "one[3].three[1].seven.eight")
    ensures a + "." + b + "." + c + "." + d == path
  {
    if b == "three[1]" {
      assert a + "." + b == "one[3].three[1]";
      assert a + "." + b + "." + c == "one[3].three[1].seven";
    } else if c == "four" {
      assert a + "." + b == "one[3].three[0]";
      assert a + "." + b + "." + c == "one[3].three[0].four";
    } else {
      assert a + "." + b == "one[3].three[0]";
      assert a + "." + b + "." + c == "one[3].three[0].seven";
    }
  }

  // ---------------------------------------------------------------------
  // The paths of the cases
  // ---------------------------------------------------------------------

  /** A path of segments whose names are words spells its printed text. */
  lemma Spelled(segs: seq<Seg>, path: string)
    requires segs != [] && PathOf(segs, '.') == path
    requires forall j :: 0 <= j < |segs| ==> IsWord(segs[j].name)
    ensures Spells(segs, path)
  {
    WordSegments(segs, '.');
  }

  lemma SpellThree(segs: seq<Seg>, i: nat, path: string)
    requires i < 10 && segs == [Plain("one"), Plain("two"), Indexed("three", i)]
    requires path == "one.two.three[" + [Digits.DigitChar(i)] + "]"
    ensures Spells(segs, path)
  {
    assert PathOf(segs, '.') == path by {
      Path3(Plain("one"), Plain("two"), Indexed("three", i));
      IndexText("three", i, "three[" + [Digits.DigitChar(i)] + "]");
    }
    Words();
    Spelled(segs, path);
  }

  lemma SpellMapC(segs: seq<Seg>)
    requires segs == [Indexed("one", 2), Plain("map_c")]
    ensures Spells(segs, "one[2].map_c")
  {
    assert PathOf(segs, '.') == "one[2].map_c" by {
      Path2(Indexed("one", 2), Plain("map_c"));
      IndexText("one", 2, "one[2]");
    }
    Words();
    Spelled(segs, "one[2].map_c");
  }

  lemma SpellFour(segs: seq<Seg>)
    requires segs == [Plain("one"), Plain("two"), Plain("four")]
    ensures Spells(segs, "one.two.four")
  {
    assert PathOf(segs, '.') == "one.two.four" by {
      Path3(Plain("one"), Plain("two"), Plain("four"));
    }
    Words();
    Spelled(segs, "one.two.four");
  }

  lemma SpellFour0(segs: seq<Seg>)
    requires segs == [Plain("one"), Plain("two"), Indexed("four", 0)]
    ensures Spells(segs, "one.two.four[0]")
  {
    assert PathOf(segs, '.') == "one.two.four[0]" by {
      Path3(segs[0], segs[1], segs[2]);
      assert [segs[0], segs[1], segs[2]] == segs;
      IndexText(segs[2].name, segs[2].index, "four[0]");
      Dots3(segs[0].name, segs[1].name, SegmentText(segs[2]), "one.two.four[0]");
    }
    Words();
    Spelled(segs, "one.two.four[0]");
  }

  lemma SpellEight(segs: seq<Seg>, i: nat, first: string, path: string)
    requires (i == 1 && first == "one[1]" && path == "one[1].two[1].eight")
          || (i == 2 && first == "one[2]" && path == "one[2].two[1].eight")
    requires segs == [Indexed("one", i), Indexed("two", 1), Plain("eight")]
    ensures Spells(segs, path)
  {
    assert PathOf(segs, '.') == path by {
      Path3(segs[0], segs[1], segs[2]);
      assert [segs[0], segs[1], segs[2]] == segs;
      IndexText(segs[0].name, segs[0].index, first);
      IndexText(segs[1].name, segs[1].index, "two[1]");
      Dots3(SegmentText(segs[0]), SegmentText(segs[1]), segs[2].name, path);
    }
    Words();
    Spelled(segs, path);
  }

  lemma SpellSeven(segs: seq<Seg>, i: nat, second: string, path: string)
    requires (i == 0 && second == "three[0]" && path == "one[3].three[0].seven.eight")
          || (i == 1 && second == "three[1]" && path == "one[3].three[1].seven.eight")
    requires segs == [Indexed("one", 3), Indexed("three", i), Plain("seven"), Plain("eight")]
    ensures Spells(segs, path)
  {
    assert PathOf(segs, '.') == path by {
      Path4(segs[0], segs[1], segs[2], segs[3]);
      assert [segs[0], segs[1], segs[2], segs[3]] == segs;
      IndexText(segs[0].name, segs[0].index, "one[3]");
      IndexText(segs[1].name, segs[1].index, second);
      Dots4(SegmentText(segs[0]), SegmentText(segs[1]), segs[2].name, segs[3].name, path);
    }
    Words();
    Spelled(segs, path);
  }

  lemma SpellNine(segs: seq<Seg>)
    requires segs == [Indexed("one", 3), Indexed("three", 0), Plain("four"), Plain("nine")]
    ensures Spells(segs, "one[3].three[0].four.nine")
  {
    assert PathOf(segs, '.') == "one[3].three[0].four.nine" by {
      Path4(segs[0], segs[1], segs[2], segs[3]);
      assert [segs[0], segs[1], segs[2], segs[3]] == segs;
      IndexText(segs[0].name, segs[0].index, "one[3]");
      IndexText(segs[1].name, segs[1].index, "three[0]");
      Dots4(SegmentText(segs[0]), SegmentText(segs[1]), segs[2].name, segs[3].name, "one[3].three[0].four.nine");
    }
    Words();
    Spelled(segs, "one[3].three[0].four.nine");
  }

  lemma SpellShort(segs: seq<Seg>, path: string)
    requires (segs == [Plain("one")] && path == "one")
          || (segs == [Indexed("one", 0)] && path == "one[0]")
    ensures Spells(segs, path)
  {
    assert PathOf(segs, '.') == path by {
      Texts1(segs[0]);
      if segs[0].Indexed? {
        IndexText("one", 0, "one[0]");
      }
    }
    Words();
    Spelled(segs, path);
  }

  lemma SpellPair(segs: seq<Seg>, a: string, b: string, path: string)
    requires (a == "one" && b == "two") || (a == "a" && b == "b")
    requires segs == [Plain(a), Plain(b)] && path == a + "." + b
    ensures Spells(segs, path)
  {
    assert PathOf(segs, '.') == path by {
      Path2(Plain(a), Plain(b));
    }
    Words();
    Spelled(segs, path);
  }

  // ---------------------------------------------------------------------
  // GetProperty
  // ---------------------------------------------------------------------

  lemma GetNestedElementSegs(doc: Doc, segs: seq<Seg>)
    requires doc == Nested() && segs == [Plain("one"), Plain("two"), Indexed("three", 1)]
    ensures Get(doc, PathOf(segs, '.'), '.') == Ok(Num(2))
  {
    SpellThree(segs, 1, "one.two.three[1]");
    assert Find(doc, segs) == Some(Num(2)) by {
      assert segs[1..] == [Plain("two"), Indexed("three", 1)] && segs[1..][1..] == [Indexed("three", 1)];
      assert Find(doc, segs) == Find(doc["one"].fields, segs[1..]);
      assert Find(doc["one"].fields, segs[1..]) == Find(Two(), [Indexed("three", 1)]);
    }
    GetFound(doc, segs, '.');
  }

  /** An element of a nested sequence is found by its index. */
  lemma GetNestedElement(doc: Doc, path: string)
    requires doc == Nested() && path == "one.two.three[1]"
    ensures Get(doc, path, '.') == Ok(Num(2))
  {
    var segs := [Plain("one"), Plain("two"), Indexed("three", 1)];
    SpellThree(segs, 1, path);
    GetNestedElementSegs(doc, segs);
  }

  lemma GetListedElementSegs(doc: Doc, segs: seq<Seg>)
    requires doc == Listed() && segs == [Indexed("one", 2), Plain("map_c")]
    ensures Get(doc, PathOf(segs, '.'), '.') == Ok(Arr([Num(7), Num(8), Num(9)]))
  {
    SpellMapC(segs);
    assert Find(doc, segs) == Some(Arr([Num(7), Num(8), Num(9)])) by {
      assert segs[1..] == [Plain("map_c")];
    }
    GetFound(doc, segs, '.');
  }

  /** A key of a mapping held in a sequence is found through the element's index. */
  lemma GetListedElement(doc: Doc, path: string)
    requires doc == Listed() && path == "one[2].map_c"
    ensures Get(doc, path, '.') == Ok(Arr([Num(7), Num(8), Num(9)]))
  {
    var segs := [Indexed("one", 2), Plain("map_c")];
    SpellMapC(segs);
    GetListedElementSegs(doc, segs);
  }

  lemma GetMissingSegs(doc: Doc, segs: seq<Seg>)
    requires doc == Nested()
    requires segs == [Plain("one"), Plain("two"), Plain("four")] || segs == [Plain("one"), Plain("two"), Indexed("four", 0)]
    ensures Get(doc, PathOf(segs, '.'), '.') == Err(NotExist("four"))
  {
    if segs[2].Plain? {
      SpellFour(segs);
    } else {
      SpellFour0(segs);
    }
    assert Resolve(doc, segs, '.') == Err(NotExist("four")) by {
      assert segs[1..] == [Plain("two"), segs[2]] && segs[1..][1..] == [segs[2]];
      assert Resolve(doc, segs, '.') == Resolve(doc["one"].fields, segs[1..], '.');
      assert Resolve(doc["one"].fields, segs[1..], '.') == Resolve(Two(), [segs[2]], '.');
    }
    GetResolve(doc, segs, '.');
  }

  /** A missing key is reported by its own name. */
  lemma GetMissing(doc: Doc, path: string)
    requires doc == Nested() && path == "one.two.four"
    ensures Get(doc, path, '.') == Err(NotExist("four"))
  {
    var segs := [Plain("one"), Plain("two"), Plain("four")];
    SpellFour(segs);
    GetMissingSegs(doc, segs);
  }

  /** A missing sequence is reported by its own name too. */
  lemma GetMissingSequence(doc: Doc, path: string)
    requires doc == Nested() && path == "one.two.four[0]"
    ensures Get(doc, path, '.') == Err(NotExist("four"))
  {
    var segs := [Plain("one"), Plain("two"), Indexed("four", 0)];
    SpellFour0(segs);
    GetMissingSegs(doc, segs);
  }

  lemma GetOutOfRangeSegs(doc: Doc, segs: seq<Seg>)
    requires doc == Nested() && segs == [Plain("one"), Plain("two"), Indexed("three", 9)]
    ensures Get(doc, PathOf(segs, '.'), '.') == Err(OutOfRange("three", 3))
  {
    SpellThree(segs, 9, "one.two.three[9]");
    assert Resolve(doc, segs, '.') == Err(OutOfRange("three", 3)) by {
      assert segs[1..] == [Plain("two"), Indexed("three", 9)] && segs[1..][1..] == [Indexed("three", 9)];
      assert Resolve(doc, segs, '.') == Resolve(doc["one"].fields, segs[1..], '.');
      assert Resolve(doc["one"].fields, segs[1..], '.') == Resolve(Two(), [Indexed("three", 9)], '.');
    }
    GetResolve(doc, segs, '.');
  }

  /** An index past the end reports the sequence's name and length. */
  lemma GetOutOfRange(doc: Doc, path: string)
    requires doc == Nested() && path == "one.two.three[9]"
    ensures Get(doc, path, '.') == Err(OutOfRange("three", 3))
  {
    var segs := [Plain("one"), Plain("two"), Indexed("three", 9)];
    SpellThree(segs, 9, path);
    GetOutOfRangeSegs(doc, segs);
  }

  lemma GetDeepMissingKeySegs(doc: Doc, segs: seq<Seg>)
    requires doc == Deep() && segs == [Indexed("one", 1), Indexed("two", 1), Plain("eight")]
    ensures Get(doc, PathOf(segs, '.'), '.') == Err(NotExist("eight"))
  {
    SpellEight(segs, 1, "one[1]", "one[1].two[1].eight");
    var e := map["two" := Arr([Got("five", "got five"), Got("six", "got six")])];
    assert doc["one"].items[1] == Obj(e);
    assert segs[1..] == [Indexed("two", 1), Plain("eight")];
    assert Resolve(doc, segs, '.') == Resolve(e, segs[1..], '.');
    var g := map["six" := Str("got six")];
    assert e["two"].items[1] == Got("six", "got six");
    assert segs[1..][1..] == [Plain("eight")];
    assert Resolve(e, segs[1..], '.') == Resolve(g, [Plain("eight")], '.');
    GetResolve(doc, segs, '.');
  }

  /** A key missing below two indexed levels is reported by its own name. */
  lemma GetDeepMissingKey(doc: Doc, path: string)
    requires doc == Deep() && path == "one[1].two[1].eight"
    ensures Get(doc, path, '.') == Err(NotExist("eight"))
  {
    var segs := [Indexed("one", 1), Indexed("two", 1), Plain("eight")];
    SpellEight(segs, 1, "one[1]", "one[1].two[1].eight");
    GetDeepMissingKeySegs(doc, segs);
  }

  lemma GetDeepMissingMappingSegs(doc: Doc, segs: seq<Seg>)
    requires doc == Deep() && segs == [Indexed("one", 3), Indexed("three", 0), Plain("seven"), Plain("eight")]
    ensures Get(doc, PathOf(segs, '.'), '.') == Err(NotExist("seven"))
  {
    SpellSeven(segs, 0, "three[0]", "one[3].three[0].seven.eight");
    var e := map["four" := Obj(map["five" := Str("six")])];
    assert doc["one"].items[3] == Fourth();
    assert segs[1..] == [Indexed("three", 0), Plain("seven"), Plain("eight")];
    assert Resolve(doc, segs, '.') == Resolve(Fourth().fields, segs[1..], '.');
    assert Fourth().fields["three"].items[0] == Obj(e);
    assert segs[1..][1..] == [Plain("seven"), Plain("eight")];
    assert Resolve(Fourth().fields, segs[1..], '.') == Resolve(e, segs[1..][1..], '.');
    GetResolve(doc, segs, '.');
  }

  /** A missing mapping on the way is reported by its own name. */
  lemma GetDeepMissingMapping(doc: Doc, path: string)
    requires doc == Deep() && path == "one[3].three[0].seven.eight"
    ensures Get(doc, path, '.') == Err(NotExist("seven"))
  {
    var segs := [Indexed("one", 3), Indexed("three", 0), Plain("seven"), Plain("eight")];
    SpellSeven(segs, 0, "three[0]", "one[3].three[0].seven.eight");
    GetDeepMissingMappingSegs(doc, segs);
  }

  /** The texts of the errors above. */
  lemma MessageOutOfRange(e: Error)
    requires e == OutOfRange("three", 3)
    ensures Message(e) == "three: Min index is 0, Max index is 3"
  {
    assert Digits.Decimal(3) == "3";
  }

  lemma MessageNotExist(e: Error)
    requires e == NotExist("four")
    ensures Message(e) == "Property four does not exist"
  {
  }

  lemma MessageAlreadyExists(e: Error)
    requires e == AlreadyExists("one")
    ensures Message(e) == "Property one already exists"
  {
  }

  // ---------------------------------------------------------------------
  // AddProperty
  // ---------------------------------------------------------------------

  lemma AddExistingSegs(doc: Doc, segs: seq<Seg>, value: Value)
    requires doc == Nested() && segs == [Plain("one")]
    ensures Add(doc, PathOf(segs, '.'), '.', value) == Outcome(doc, Some(AlreadyExists(PathOf(segs, '.'))))
  {
    SpellShort(segs, "one");
    assert [] + [Plain("one")] == segs;
    AddAt(doc, [], Plain("one"), '.', value);
  }

  /** Adding a path that exists fails and leaves the document as it was. */
  lemma AddExisting(doc: Doc, path: string, value: Value)
    requires doc == Nested() && path == "one"
    ensures Add(doc, path, '.', value) == Outcome(doc, Some(AlreadyExists("one")))
  {
    var segs := [Plain("one")];
    SpellShort(segs, path);
    AddExistingSegs(doc, segs, value);
  }

  /** setupDocument with x appended to one.two.three. */
  function NestedAppended(x: Value): Doc {
    map["one" := Obj(Nested()["one"].fields["two" := Obj(map["three" := Arr([Num(1), Num(2), Num(3), x])])])]
  }

  lemma AppendSteps(doc: Doc, i: nat, x: Value)
    requires doc == Nested() && i >= 3
    ensures FindMap(doc, [Plain("one"), Plain("two")]) == Some(Two())
    ensures AddSlot(Two(), Indexed("three", i), x) == map["three" := Arr([Num(1), Num(2), Num(3), x])]
    ensures UpdatedSlot(Two(), Indexed("three", i), x) == map["three" := Arr([Num(1), Num(2), Num(3), x])]
    ensures PutMap(doc, [Plain("one"), Plain("two")], map["three" := Arr([Num(1), Num(2), Num(3), x])]) == NestedAppended(x)
  {
    assert [Plain("one"), Plain("two")][1..] == [Plain("two")] && [Plain("two")][1..] == [];
    assert [Num(1), Num(2), Num(3)] + [x] == [Num(1), Num(2), Num(3), x];
  }

  lemma AddAppendsSegs(doc: Doc, segs: seq<Seg>, i: nat, x: Value)
    requires doc == Nested() && 3 <= i < 10 && segs == [Plain("one"), Plain("two"), Indexed("three", i)]
    ensures Add(doc, PathOf(segs, '.'), '.', x) == Outcome(NestedAppended(x), None)
  {
    var prefix := [Plain("one"), Plain("two")];
    SpellThree(segs, i, "one.two.three[" + [Digits.DigitChar(i)] + "]");
    AppendSteps(doc, i, x);
    assert prefix + [Indexed("three", i)] == segs;
    AddAt(doc, prefix, Indexed("three", i), '.', x);
  }

  /** Adding at the length of a sequence appends. */
  lemma AddAppends(doc: Doc, path: string)
    requires doc == Nested() && path == "one.two.three[3]"
    ensures Add(doc, path, '.', Str("added value")) == Outcome(NestedAppended(Str("added value")), None)
  {
    var segs := [Plain("one"), Plain("two"), Indexed("three", 3)];
    SpellThree(segs, 3, path);
    AddAppendsSegs(doc, segs, 3, Str("added value"));
  }

  /** Adding past the length of a sequence appends as well; the value is not dropped. */
  lemma AddPastEnd(doc: Doc, path: string)
    requires doc == Nested() && path == "one.two.three[7]"
    ensures Add(doc, path, '.', Str("x")) == Outcome(NestedAppended(Str("x")), None)
  {
    var segs := [Plain("one"), Plain("two"), Indexed("three", 7)];
    SpellThree(segs, 7, path);
    AddAppendsSegs(doc, segs, 7, Str("x"));
  }

  /** The mapping at one[3].three[0].four of setupDocument_II, with a key nine added. */
  function FourWithNine(x: Value): Doc {
    map["five" := Str("six"), "nine" := x]
  }

  /** The last element of setupDocument_II with a key nine added at three[0].four. */
  function FourthWithNine(x: Value): Doc {
    map["three" := Arr([Obj(map["four" := Obj(FourWithNine(x))]),
                        Obj(map["seven" := Obj(map["eight" := Str("ten")])])])]
  }

  /** setupDocument_II with a key nine added at one[3].three[0].four. */
  function DeepWithNine(x: Value): Doc {
    map["one" := Arr(Deep()["one"].items[3 := Obj(FourthWithNine(x))])]
  }

  lemma NineFind(doc: Doc)
    requires doc == Deep()
    ensures FindMap(doc, [Indexed("one", 3), Indexed("three", 0), Plain("four")]) == Some(map["five" := Str("six")])
  {
    var prefix := [Indexed("one", 3), Indexed("three", 0), Plain("four")];
    assert prefix[1..] == [Indexed("three", 0), Plain("four")];
    assert prefix[1..][1..] == [Plain("four")] && [Plain("four")][1..] == [];
    assert doc["one"].items[3] == Fourth();
  }

  lemma NineSlot(x: Value)
    ensures AddSlot(map["five" := Str("six")], Plain("nine"), x) == FourWithNine(x)
    ensures UpdatedSlot(map["five" := Str("six")], Plain("nine"), x) == FourWithNine(x)
  {
  }

  /** The rebuilding inside the last element of setupDocument_II. */
  lemma NinePutInner(f: Doc, rest: seq<Seg>, g: Doc, x: Value)
    requires f == Fourth().fields && rest == [Indexed("three", 0), Plain("four")] && g == FourWithNine(x)
    ensures PutMap(f, rest, g) == FourthWithNine(x)
  {
    var e0 := map["four" := Obj(map["five" := Str("six")])];
    assert rest[1..] == [Plain("four")] && rest[1..][1..] == [];
    assert PutMap(e0, rest[1..], g) == map["four" := Obj(g)];
    var three := f["three"].items;
    assert three[0] == Obj(e0);
    assert three[0 := Obj(map["four" := Obj(g)])] == FourthWithNine(x)["three"].items;
  }

  lemma NinePut(doc: Doc, prefix: seq<Seg>, x: Value)
    requires doc == Deep() && prefix == [Indexed("one", 3), Indexed("three", 0), Plain("four")]
    ensures PutMap(doc, prefix, FourWithNine(x)) == DeepWithNine(x)
  {
    assert doc["one"].items[3] == Fourth();
    NinePutInner(Fourth().fields, prefix[1..], FourWithNine(x), x);
  }

  lemma AddDeepSegs(doc: Doc, segs: seq<Seg>, x: Value)
    requires doc == Deep() && segs == [Indexed("one", 3), Indexed("three", 0), Plain("four"), Plain("nine")]
    ensures Add(doc, PathOf(segs, '.'), '.', x) == Outcome(DeepWithNine(x), None)
  {
    var prefix := [Indexed("one", 3), Indexed("three", 0), Plain("four")];
    SpellNine(segs);
    NineFind(doc);
    NineSlot(x);
    NinePut(doc, prefix, x);
    assert prefix + [Plain("nine")] == segs;
    AddAt(doc, prefix, Plain("nine"), '.', x);
  }

  /** A key is added to a mapping reached through two indexed levels. */
  lemma AddDeep(doc: Doc, path: string)
    requires doc == Deep() && path == "one[3].three[0].four.nine"
    ensures Add(doc, path, '.', Str("added value")) == Outcome(DeepWithNine(Str("added value")), None)
  {
    var segs := [Indexed("one", 3), Indexed("three", 0), Plain("four"), Plain("nine")];
    SpellNine(segs);
    AddDeepSegs(doc, segs, Str("added value"));
  }

  // ---------------------------------------------------------------------
  // UpdateProperty
  // ---------------------------------------------------------------------

  lemma UpdateAppendsSegs(doc: Doc, segs: seq<Seg>, x: Value)
    requires doc == Nested() && segs == [Plain("one"), Plain("two"), Indexed("three", 3)]
    ensures Update(doc, PathOf(segs, '.'), '.', x) == Outcome(NestedAppended(x), None)
  {
    var prefix := [Plain("one"), Plain("two")];
    SpellThree(segs, 3, "one.two.three[3]");
    AppendSteps(doc, 3, x);
    assert prefix + [Indexed("three", 3)] == segs;
    UpdateAt(doc, prefix, Indexed("three", 3), '.', x);
  }

  /** Updating at the length of a sequence appends, through AddProperty. */
  lemma UpdateAppends(doc: Doc, path: string)
    requires doc == Nested() && path == "one.two.three[3]"
    ensures Update(doc, path, '.', Str("updated value")) == Outcome(NestedAppended(Str("updated value")), None)
  {
    var segs := [Plain("one"), Plain("two"), Indexed("three", 3)];
    SpellThree(segs, 3, path);
    UpdateAppendsSegs(doc, segs, Str("updated value"));
  }

  /** setupDocument with the middle element of one.two.three replaced by x. */
  function NestedReplaced(x: Value): Doc {
    map["one" := Obj(Nested()["one"].fields["two" := Obj(map["three" := Arr([Num(1), x, Num(3)])])])]
  }

  lemma ReplaceSteps(doc: Doc, x: Value)
    requires doc == Nested()
    ensures FindMap(doc, [Plain("one"), Plain("two")]) == Some(Two())
    ensures UpdatedSlot(Two(), Indexed("three", 1), x) == map["three" := Arr([Num(1), x, Num(3)])]
    ensures PutMap(doc, [Plain("one"), Plain("two")], map["three" := Arr([Num(1), x, Num(3)])]) == NestedReplaced(x)
  {
    assert [Plain("one"), Plain("two")][1..] == [Plain("two")] && [Plain("two")][1..] == [];
    assert [Num(1), Num(2), Num(3)][1 := x] == [Num(1), x, Num(3)];
  }

  lemma UpdateReplacesSegs(doc: Doc, segs: seq<Seg>, x: Value)
    requires doc == Nested() && segs == [Plain("one"), Plain("two"), Indexed("three", 1)]
    ensures Update(doc, PathOf(segs, '.'), '.', x) == Outcome(NestedReplaced(x), None)
  {
    var prefix := [Plain("one"), Plain("two")];
    SpellThree(segs, 1, "one.two.three[1]");
    ReplaceSteps(doc, x);
    assert prefix + [Indexed("three", 1)] == segs;
    UpdateAt(doc, prefix, Indexed("three", 1), '.', x);
  }

  /** Updating an element in range replaces it and keeps the others. */
  lemma UpdateReplaces(doc: Doc, path: string)
    requires doc == Nested() && path == "one.two.three[1]"
    ensures Update(doc, path, '.', Str("updated value")) == Outcome(NestedReplaced(Str("updated value")), None)
  {
    var segs := [Plain("one"), Plain("two"), Indexed("three", 1)];
    SpellThree(segs, 1, path);
    UpdateReplacesSegs(doc, segs, Str("updated value"));
  }

  lemma UpdateDeepSegs(doc: Doc, segs: seq<Seg>, x: Value)
    requires doc == Deep() && segs == [Indexed("one", 3), Indexed("three", 0), Plain("four"), Plain("nine")]
    ensures Update(doc, PathOf(segs, '.'), '.', x) == Outcome(DeepWithNine(x), None)
  {
    var prefix := [Indexed("one", 3), Indexed("three", 0), Plain("four")];
    SpellNine(segs);
    NineFind(doc);
    NineSlot(x);
    NinePut(doc, prefix, x);
    assert prefix + [Plain("nine")] == segs;
    UpdateAt(doc, prefix, Plain("nine"), '.', x);
  }

  /** Updating a missing key below two indexed levels adds it. */
  lemma UpdateDeep(doc: Doc, path: string)
    requires doc == Deep() && path == "one[3].three[0].four.nine"
    ensures Update(doc, path, '.', Str("updated value")) == Outcome(DeepWithNine(Str("updated value")), None)
  {
    var segs := [Indexed("one", 3), Indexed("three", 0), Plain("four"), Plain("nine")];
    SpellNine(segs);
    UpdateDeepSegs(doc, segs, Str("updated value"));
  }

  lemma UpdateBelowLeafSegs(doc: Doc, segs: seq<Seg>)
    requires doc == map["a" := Num(1)] && segs == [Plain("a"), Plain("b")]
    ensures Get(doc, PathOf(segs, '.'), '.') == Ok(Obj(doc))
    ensures Update(doc, PathOf(segs, '.'), '.', Obj(doc)) == Outcome(doc[PathOf(segs, '.') := Obj(doc)], None)
  {
    SpellPair(segs, "a", "b", "a.b");
    assert [Plain("a")] + [Plain("b")] == segs;
    assert [] + [Plain("a")] + [Plain("b")] == segs;
    assert Find(doc, [] + [Plain("a")]) == Some(Num(1));
    GetBelowLeaf(doc, [], Plain("a"), [Plain("b")], '.');
    UpdateBelowLeaf(doc, "a", [Plain("b")], '.', Obj(doc));
  }

  /** GetProperty succeeds below a leaf, yet writing back what it returned is not a no-op:
      the value lands under the whole path string. */
  lemma UpdateBelowLeafChanges(doc: Doc, path: string)
    requires doc == map["a" := Num(1)] && path == "a.b"
    ensures Get(doc, path, '.') == Ok(Obj(doc))
    ensures Update(doc, path, '.', Obj(doc)) == Outcome(doc["a.b" := Obj(doc)], None)
  {
    var segs := [Plain("a"), Plain("b")];
    SpellPair(segs, "a", "b", path);
    UpdateBelowLeafSegs(doc, segs);
  }

  // ---------------------------------------------------------------------
  // DeleteProperty
  // ---------------------------------------------------------------------

  /** Deleting the root empties the document. */
  lemma DeleteRootCase(doc: Doc, path: string)
    requires doc == Nested() && path == "."
    ensures Delete(doc, path, '.') == Outcome(map[], None)
  {
    DeleteRoot(doc, '.');
  }

  lemma DeleteOnlyKeySegs(doc: Doc, segs: seq<Seg>)
    requires doc == Nested() && segs == [Plain("one")]
    ensures Delete(doc, PathOf(segs, '.'), '.') == Outcome(map[], None)
  {
    SpellShort(segs, "one");
    assert [] + [Plain("one")] == segs;
    DeleteThenGet(doc, [], "one", '.');
    assert doc - {"one"} == map[];
  }

  /** Deleting the only top-level key empties the document. */
  lemma DeleteOnlyKey(doc: Doc, path: string)
    requires doc == Nested() && path == "one"
    ensures Delete(doc, path, '.') == Outcome(map[], None)
  {
    var segs := [Plain("one")];
    SpellShort(segs, path);
    DeleteOnlyKeySegs(doc, segs);
  }

  lemma NestedKeySteps(doc: Doc)
    requires doc == Nested()
    ensures FindMap(doc, [Plain("one")]) == Some(doc["one"].fields)
    ensures "two" in doc["one"].fields
    ensures doc["one"].fields - {"two"} == map["four" := Obj(Five())]
    ensures PutMap(doc, [Plain("one")], map["four" := Obj(Five())]) == map["one" := Obj(map["four" := Obj(Five())])]
  {
    assert [Plain("one")][1..] == [];
  }

  lemma DeleteNestedKeySegs(doc: Doc, segs: seq<Seg>)
    requires doc == Nested() && segs == [Plain("one"), Plain("two")]
    ensures Delete(doc, PathOf(segs, '.'), '.') == Outcome(map["one" := Obj(map["four" := Obj(Five())])], None)
  {
    SpellPair(segs, "one", "two", "one.two");
    assert [Plain("one")] + [Plain("two")] == segs;
    NestedKeySteps(doc);
    DeleteThenGet(doc, [Plain("one")], "two", '.');
  }

  /** Deleting a nested key keeps its siblings. */
  lemma DeleteNestedKey(doc: Doc, path: string)
    requires doc == Nested() && path == "one.two"
    ensures Delete(doc, path, '.') == Outcome(map["one" := Obj(map["four" := Obj(Five())])], None)
  {
    var segs := [Plain("one"), Plain("two")];
    SpellPair(segs, "one", "two", path);
    DeleteNestedKeySegs(doc, segs);
  }

  lemma ListedSteps(doc: Doc)
    requires doc == Listed()
    ensures Slot(doc, Indexed("one", 0)).Some?
    ensures doc["one"].items[1] == Obj(map["map_b" := Arr([Num(4), Num(5), Num(6)])])
    ensures |doc["one"].items| == 3
    ensures doc["one" := Arr(Without(doc["one"].items, 0))] == map["one" := Arr(doc["one"].items[1..])]
  {
    var items := doc["one"].items;
    assert Without(items, 0) == items[1..];
  }

  lemma DeleteListedElementSegs(doc: Doc, segs: seq<Seg>)
    requires doc == Listed() && segs == [Indexed("one", 0)]
    ensures Delete(doc, PathOf(segs, '.'), '.') == Outcome(map["one" := Arr(doc["one"].items[1..])], None)
    ensures Get(Delete(doc, PathOf(segs, '.'), '.').data, PathOf(segs, '.'), '.')
            == Ok(Obj(map["map_b" := Arr([Num(4), Num(5), Num(6)])]))
  {
    SpellShort(segs, "one[0]");
    assert [] + [Indexed("one", 0)] == segs;
    ListedSteps(doc);
    DeleteElement(doc, [], "one", 0, '.');
    DeleteElementThenGet(doc, [], "one", 0, '.');
  }

  /** Deleting an element shifts the next one into its place. */
  lemma DeleteListedElement(doc: Doc, path: string)
    requires doc == Listed() && path == "one[0]"
    ensures Delete(doc, path, '.') == Outcome(map["one" := Arr(doc["one"].items[1..])], None)
    ensures Get(Delete(doc, path, '.').data, path, '.') == Ok(Obj(map["map_b" := Arr([Num(4), Num(5), Num(6)])]))
  {
    var segs := [Indexed("one", 0)];
    SpellShort(segs, path);
    DeleteListedElementSegs(doc, segs);
  }

  /** setupDocument_II after one[2].two[1].eight is deleted. */
  function DeepPruned(): Doc {
    map["one" := Arr(Deep()["one"].items[2 := Obj(map["two" := Arr([Got("seven", "got seven")])])])]
  }

  lemma PruneSteps(doc: Doc)
    requires doc == Deep()
    ensures FindMap(doc, [Indexed("one", 2), Indexed("two", 1)]) == Some(map["eight" := Str("got eight")])
    ensures DeleteSlot(map["eight" := Str("got eight")], Plain("eight")) == map[]
    ensures PutPruned(doc, [Indexed("one", 2), Indexed("two", 1)], map[]) == DeepPruned()
  {
    var prefix := [Indexed("one", 2), Indexed("two", 1)];
    assert prefix[1..] == [Indexed("two", 1)] && prefix[1..][1..] == [];
    assert map["eight" := Str("got eight")] - {"eight"} == map[];
    var two := [Got("seven", "got seven"), Got("eight", "got eight")];
    var e2 := map["two" := Arr(two)];
    assert doc["one"].items[2] == Obj(e2);
    assert two[1] == Obj(map["eight" := Str("got eight")]);
    assert Without(two, 1) == [Got("seven", "got seven")];
    assert PutPruned(e2, prefix[1..], map[]) == map["two" := Arr([Got("seven", "got seven")])];
  }

  lemma DeletePrunesSegs(doc: Doc, segs: seq<Seg>)
    requires doc == Deep() && segs == [Indexed("one", 2), Indexed("two", 1), Plain("eight")]
    ensures Delete(doc, PathOf(segs, '.'), '.') == Outcome(DeepPruned(), None)
  {
    var prefix := [Indexed("one", 2), Indexed("two", 1)];
    SpellEight(segs, 2, "one[2]", "one[2].two[1].eight");
    PruneSteps(doc);
    assert prefix + [Plain("eight")] == segs;
    DeleteAt(doc, prefix, Plain("eight"), '.');
  }

  /** Emptying the mapping of a sequence element removes the element. */
  lemma DeletePrunes(doc: Doc, path: string)
    requires doc == Deep() && path == "one[2].two[1].eight"
    ensures Delete(doc, path, '.') == Outcome(DeepPruned(), None)
  {
    var segs := [Indexed("one", 2), Indexed("two", 1), Plain("eight")];
    SpellEight(segs, 2, "one[2]", "one[2].two[1].eight");
    DeletePrunesSegs(doc, segs);
  }

  /** The last element of setupDocument_II after three[1].seven.eight is deleted. */
  function FourthEmptied(): Doc {
    map["three" := Arr([Obj(map["four" := Obj(map["five" := Str("six")])]),
                        Obj(map["seven" := Obj(map[])])])]
  }

  /** setupDocument_II after one[3].three[1].seven.eight is deleted. */
  function DeepEmptied(): Doc {
    map["one" := Arr(Deep()["one"].items[3 := Obj(FourthEmptied())])]
  }

  lemma KeepFind(doc: Doc)
    requires doc == Deep()
    ensures FindMap(doc, [Indexed("one", 3), Indexed("three", 1), Plain("seven")]) == Some(map["eight" := Str("ten")])
    ensures DeleteSlot(map["eight" := Str("ten")], Plain("eight")) == map[]
  {
    var prefix := [Indexed("one", 3), Indexed("three", 1), Plain("seven")];
    assert prefix[1..] == [Indexed("three", 1), Plain("seven")];
    assert prefix[1..][1..] == [Plain("seven")] && [Plain("seven")][1..] == [];
    assert doc["one"].items[3] == Fourth();
    assert map["eight" := Str("ten")] - {"eight"} == map[];
  }

  /** The rebuilding inside the last element of setupDocument_II. */
  lemma KeepPutInner(f: Doc, rest: seq<Seg>)
    requires f == Fourth().fields && rest == [Indexed("three", 1), Plain("seven")]
    ensures PutPruned(f, rest, map[]) == FourthEmptied()
  {
    var e1 := map["seven" := Obj(map["eight" := Str("ten")])];
    assert rest[1..] == [Plain("seven")] && rest[1..][1..] == [];
    assert PutPruned(e1, rest[1..], map[]) == map["seven" := Obj(map[])];
    var three := f["three"].items;
    assert three[1] == Obj(e1);
    assert three[1 := Obj(map["seven" := Obj(map[])])] == FourthEmptied()["three"].items;
  }

  lemma KeepPut(doc: Doc, prefix: seq<Seg>)
    requires doc == Deep() && prefix == [Indexed("one", 3), Indexed("three", 1), Plain("seven")]
    ensures PutPruned(doc, prefix, map[]) == DeepEmptied()
  {
    assert doc["one"].items[3] == Fourth();
    KeepPutInner(Fourth().fields, prefix[1..]);
  }

  lemma DeleteKeepsEmptyMappingSegs(doc: Doc, segs: seq<Seg>)
    requires doc == Deep() && segs == [Indexed("one", 3), Indexed("three", 1), Plain("seven"), Plain("eight")]
    ensures Delete(doc, PathOf(segs, '.'), '.') == Outcome(DeepEmptied(), None)
  {
    var prefix := [Indexed("one", 3), Indexed("three", 1), Plain("seven")];
    SpellSeven(segs, 1, "three[1]", "one[3].three[1].seven.eight");
    KeepFind(doc);
    KeepPut(doc, prefix);
    assert prefix + [Plain("eight")] == segs;
    DeleteAt(doc, prefix, Plain("eight"), '.');
  }

  /** Emptying a mapping that is not itself a sequence element keeps it, empty. */
  lemma DeleteKeepsEmptyMapping(doc: Doc, path: string)
    requires doc == Deep() && path == "one[3].three[1].seven.eight"
    ensures Delete(doc, path, '.') == Outcome(DeepEmptied(), None)
  {
    var segs := [Indexed("one", 3), Indexed("three", 1), Plain("seven"), Plain("eight")];
    SpellSeven(segs, 1, "three[1]", "one[3].three[1].seven.eight");
    DeleteKeepsEmptyMappingSegs(doc, segs);
  }

  // ---------------------------------------------------------------------
  // Keys that are not words
  // ---------------------------------------------------------------------

  /** A person record without a first name. */
  function Person(): Doc {
    map["person" := Obj(map[])]
  }

  /** A hyphen ends the word prefix of a key, so the key parses as itself. */
  lemma HyphenText(t: string)
    requires t == "first-name"
    ensures WellFormed(Plain(t)) && '.' !in t
  {
    assert WordPrefix(t) == 5 by {
      assert forall i :: 0 <= i < 5 ==> IsWordChar(t[i]);
      assert !IsWordChar(t[5]);
    }
    assert forall i :: 0 <= i < |t| ==> t[i] != '.';
  }

  lemma HyphenDots(a: string, b: string)
    requires a == "person" && b == "first-name"
    ensures a + "." + b == "person.first-name"
  {
  }

  /** Two well-formed segments that avoid the separator spell their path. */
  lemma SpelledPair(x: Seg, y: Seg, path: string)
    requires WellFormed(x) && '.' !in SegmentText(x)
    requires WellFormed(y) && '.' !in SegmentText(y)
    requires PathOf([x, y], '.') == path
    ensures Spells([x, y], path)
  {
  }

  /** A key with a hyphen is a plain segment of its own. */
  lemma SpellHyphen(segs: seq<Seg>)
    requires segs == [Plain("person"), Plain("first-name")]
    ensures Spells(segs, "person.first-name")
  {
    assert PathOf(segs, '.') == "person.first-name" by {
      Path2(segs[0], segs[1]);
      assert [segs[0], segs[1]] == segs;
      HyphenDots(segs[0].name, segs[1].name);
    }
    assert IsWord(segs[0].name) && NonWordSeparator('.');
    WordSegment(segs[0], '.');
    HyphenText(segs[1].name);
    assert [segs[0], segs[1]] == segs;
    SpelledPair(segs[0], segs[1], "person.first-name");
  }

  lemma AddHyphenSegs(doc: Doc, segs: seq<Seg>, x: Value)
    requires doc == Person() && segs == [Plain("person"), Plain("first-name")]
    ensures Add(doc, PathOf(segs, '.'), '.', x).err == None
    ensures Get(Add(doc, PathOf(segs, '.'), '.', x).data, PathOf(segs, '.'), '.') == Ok(x)
  {
    SpellHyphen(segs);
    var prefix := [Plain("person")];
    assert prefix[1..] == [];
    assert FindMap(doc, prefix) == Some(map[]);
    assert prefix + [Plain("first-name")] == segs;
    AddThenGet(doc, prefix, Plain("first-name"), '.', x);
  }

  /** A hyphenated key is added and read back like any other. */
  lemma AddHyphenatedKey(doc: Doc, path: string)
    requires doc == Person() && path == "person.first-name"
    ensures Add(doc, path, '.', Str("Ada")).err == None
    ensures Get(Add(doc, path, '.', Str("Ada")).data, path, '.') == Ok(Str("Ada"))
  {
    var segs := [Plain("person"), Plain("first-name")];
    SpellHyphen(segs);
    AddHyphenSegs(doc, segs, Str("Ada"));
  }
}
