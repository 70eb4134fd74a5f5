/**
 * The tokenizer every operation of gjm.go runs first: split the path on
 * the separator, drop empty fragments, and read a fragment of the form
 * `name[digits]` as a property name with an index.
 *
 * The separator is one character here; an empty separator is read as '.'
 * by the callers of this module.
 */
module Tokenizer {
  import opened Digits

  // ---------------------------------------------------------------------
  // Splitting and joining on a one-character separator
  // ---------------------------------------------------------------------

  /** strings.Split for a one-character separator: the pieces between separators, in order. */
  function Split(s: string, sep: char): (r: seq<string>)
    ensures |r| >= 1
    ensures forall i :: 0 <= i < |r| ==> sep !in r[i]
    decreases |s|
  {
    if s == [] then [""]
    else
      var rest := Split(s[1..], sep);
      if s[0] == sep then [""] + rest
      else
        var first := [s[0]] + rest[0];
        assert sep !in first;
        [first] + rest[1..]
  }

  /** strings.Join: the fragments with one separator between neighbours. */
  function Join(frags: seq<string>, sep: char): (r: string)
    ensures frags != [] ==> frags[0] <= r
    ensures |frags| > 1 ==> |r| > |frags[0]| && r[|frags[0]|] == sep
    decreases |frags|
  {
    if frags == [] then ""
    else if |frags| == 1 then frags[0]
    else frags[0] + [sep] + Join(frags[1..], sep)
  }

  /** The loop that keeps the non-empty fragments, in order. */
  function NonEmpty(frags: seq<string>): (r: seq<string>)
    ensures |r| <= |frags|
    ensures forall x :: x in r <==> x in frags && x != ""
    decreases |frags|
  {
    if frags == [] then []
    else
      var last := frags[|frags| - 1];
      NonEmpty(frags[..|frags| - 1]) + (if last == "" then [] else [last])
  }

  /** Fragments as the descent uses them: none empty, none containing the separator. */
  predicate Fragments(levels: seq<string>, sep: char) {
    forall j :: 0 <= j < |levels| ==> levels[j] != "" && sep !in levels[j]
  }

  /** The levels of a path. */
  function Levels(path: string, sep: char): (levels: seq<string>)
    ensures Fragments(levels, sep)
  {
    var r := NonEmpty(Split(path, sep));
    assert forall j :: 0 <= j < |r| ==> r[j] in r;
    r
  }

  /** The split loop of gjm.go: keep the non-empty pieces of strings.Split. */
  method SplitLevels(path: string, sep: char) returns (levels: seq<string>)
    ensures levels == Levels(path, sep)
  {
    var fragments := Split(path, sep);
    levels := [];
    var i := 0;
    while i < |fragments|
      invariant 0 <= i <= |fragments|
      invariant levels == NonEmpty(fragments[..i])
    {
      assert fragments[..i + 1][..i] == fragments[..i];
      if |fragments[i]| > 0 {
        levels := levels + [fragments[i]];
      }
      i := i + 1;
    }
    assert fragments[..i] == fragments;
  }

  // ---------------------------------------------------------------------
  // Lemmas about splitting
  // ---------------------------------------------------------------------

  lemma {:induction false} SplitNoSeparator(s: string, sep: char)
    requires sep !in s
    ensures Split(s, sep) == [s]
    decreases |s|
  {
    if s != [] {
      assert sep !in s[1..];
      SplitNoSeparator(s[1..], sep);
      assert s[0] != sep;
      assert [s[0]] + s[1..] == s;
    }
  }

  /** Splitting at one separator splits the two sides independently. */
  lemma {:induction false} SplitConcat(a: string, b: string, sep: char)
    ensures Split(a + [sep] + b, sep) == Split(a, sep) + Split(b, sep)
    decreases |a|
  {
    var s := a + [sep] + b;
    if a == [] {
      assert s[1..] == b;
    } else {
      assert s[1..] == a[1..] + [sep] + b;
      SplitConcat(a[1..], b, sep);
    }
  }

  /** Joining the pieces of a split gives back the path. */
  lemma {:induction false} JoinSplit(s: string, sep: char)
    ensures Join(Split(s, sep), sep) == s
    decreases |s|
  {
    if s != [] {
      JoinSplit(s[1..], sep);
      var rest := Split(s[1..], sep);
      if s[0] != sep {
        var r := Split(s, sep);
        assert r[1..] == rest[1..];
        if |rest| == 1 {
          assert Join(r, sep) == [s[0]] + rest[0];
        } else {
          assert Join(r, sep) == [s[0]] + rest[0] + [sep] + Join(rest[1..], sep);
          assert Join(rest, sep) == rest[0] + [sep] + Join(rest[1..], sep);
        }
      }
    }
  }

  /** Splitting a join of separator-free fragments gives back the fragments. */
  lemma {:induction false} SplitJoin(frags: seq<string>, sep: char)
    requires |frags| >= 1
    requires forall j :: 0 <= j < |frags| ==> sep !in frags[j]
    ensures Split(Join(frags, sep), sep) == frags
    decreases |frags|
  {
    if |frags| == 1 {
      SplitNoSeparator(frags[0], sep);
    } else {
      SplitJoin(frags[1..], sep);
      SplitConcat(frags[0], Join(frags[1..], sep), sep);
      SplitNoSeparator(frags[0], sep);
      assert [frags[0]] + frags[1..] == frags;
    }
  }

  lemma {:induction false} NonEmptyConcat(a: seq<string>, b: seq<string>)
    ensures NonEmpty(a + b) == NonEmpty(a) + NonEmpty(b)
    decreases |b|
  {
    if b == [] {
      assert a + b == a;
    } else {
      var ab := a + b;
      assert ab[..|ab| - 1] == a + b[..|b| - 1];
      assert ab[|ab| - 1] == b[|b| - 1];
      NonEmptyConcat(a, b[..|b| - 1]);
    }
  }

  lemma {:induction false} NonEmptyKeepsAll(frags: seq<string>)
    requires forall j :: 0 <= j < |frags| ==> frags[j] != ""
    ensures NonEmpty(frags) == frags
    decreases |frags|
  {
    if frags != [] {
      NonEmptyKeepsAll(frags[..|frags| - 1]);
      assert frags[..|frags| - 1] + [frags[|frags| - 1]] == frags;
    }
  }

  /** The levels of a path joined at a separator are the levels of its two sides. */
  lemma LevelsConcat(a: string, b: string, sep: char)
    ensures Levels(a + [sep] + b, sep) == Levels(a, sep) + Levels(b, sep)
  {
    SplitConcat(a, b, sep);
    NonEmptyConcat(Split(a, sep), Split(b, sep));
  }

  /** A leading separator is ignored. */
  lemma LeadingSeparator(path: string, sep: char)
    ensures Levels([sep] + path, sep) == Levels(path, sep)
  {
    LevelsConcat("", path, sep);
    assert "" + [sep] + path == [sep] + path;
  }

  /** A trailing separator is ignored. */
  lemma TrailingSeparator(path: string, sep: char)
    ensures Levels(path + [sep], sep) == Levels(path, sep)
  {
    LevelsConcat(path, "", sep);
    assert path + [sep] + "" == path + [sep];
  }

  /** A doubled separator counts as one. */
  lemma DoubledSeparator(a: string, b: string, sep: char)
    ensures Levels(a + [sep, sep] + b, sep) == Levels(a + [sep] + b, sep)
  {
    assert a + [sep, sep] + b == a + [sep] + ([sep] + b);
    LevelsConcat(a, [sep] + b, sep);
    LeadingSeparator(b, sep);
    LevelsConcat(a, b, sep);
  }

  /** A path has no levels exactly when it is made of separators only. */
  lemma {:induction false} NoLevels(path: string, sep: char)
    ensures Levels(path, sep) == [] <==> forall i :: 0 <= i < |path| ==> path[i] == sep
    decreases |path|
  {
    if path != [] {
      NoLevels(path[1..], sep);
      if path[0] == sep {
        LeadingSeparator(path[1..], sep);
        assert [sep] + path[1..] == path;
      } else {
        assert path[0] in Split(path, sep)[0];
        assert Split(path, sep)[0] in Split(path, sep);
        assert Split(path, sep)[0] in Levels(path, sep);
      }
    }
  }

  /** Splitting the join of proper fragments gives back the fragments: re-joining the tail
      and splitting it again, as every recursive call does, is the identity. */
  lemma LevelsJoin(frags: seq<string>, sep: char)
    requires Fragments(frags, sep)
    ensures Levels(Join(frags, sep), sep) == frags
  {
    if frags == [] {
      assert Split("", sep) == [""];
      assert NonEmpty([""]) == NonEmpty([]) + [];
    } else {
      SplitJoin(frags, sep);
      NonEmptyKeepsAll(frags);
    }
  }

  /** The join of proper fragments is a non-empty path other than the bare separator. */
  lemma JoinNotRoot(frags: seq<string>, sep: char)
    requires frags != [] && Fragments(frags, sep)
    ensures Join(frags, sep) != "" && Join(frags, sep) != [sep]
    ensures |Join(frags, sep)| >= 1 && Join(frags, sep)[0] == frags[0][0]
  {
    assert frags[0][0] in frags[0];
  }

  // ---------------------------------------------------------------------
  // Segments
  // ---------------------------------------------------------------------

  /** RE2's \w: ASCII letters, digits and underscore. */
  predicate IsWordChar(c: char) {
    ('a' <= c <= 'z') || ('A' <= c <= 'Z') || ('0' <= c <= '9') || c == '_'
  }

  predicate IsWord(s: string) {
    |s| >= 1 && forall i :: 0 <= i < |s| ==> IsWordChar(s[i])
  }

  /** One path component: a property name, optionally with one index. */
  datatype Seg = Plain(name: string) | Indexed(name: string, index: nat)

  /** The length of the longest prefix of word characters. */
  function WordPrefix(s: string): (n: nat)
    ensures n <= |s|
    ensures forall i :: 0 <= i < n ==> IsWordChar(s[i])
    ensures n < |s| ==> !IsWordChar(s[n])
    decreases |s|
  {
    if s == [] || !IsWordChar(s[0]) then 0 else 1 + WordPrefix(s[1..])
  }

  /** Reads `name[digits]` as an indexed segment; any other fragment is a plain key. */
  function ParseSegment(frag: string): (g: Seg)
    ensures g.Plain? ==> g.name == frag
    ensures g.Indexed? ==> IsWord(g.name) && |g.name| < |frag| && frag[..|g.name|] == g.name && frag[|g.name|] == '['
  {
    var n := WordPrefix(frag);
    if 1 <= n && n + 2 < |frag| && frag[n] == '[' && frag[|frag| - 1] == ']' && AllDigits(frag[n + 1..|frag| - 1])
    then Indexed(frag[..n], ValueOf(frag[n + 1..|frag| - 1]))
    else Plain(frag)
  }

  /** The text a segment is written as in a path. */
  function SegmentText(g: Seg): string {
    match g
    case Plain(name) => name
    case Indexed(name, index) => name + "[" + Decimal(index) + "]"
  }

  /** A segment that parses back from its own text. An indexed segment's name is a word,
      which is what the pattern of gjm.go:45-51 reads before the bracket; a plain
      segment's name is any non-empty text the parser does not read as indexed, so it
      may hold hyphens, spaces or other punctuation. */
  predicate WellFormed(g: Seg) {
    match g
    case Plain(name) => name != "" && ParseSegment(name) == g
    case Indexed(name, _) => IsWord(name)
  }

  /** Well-formed segments none of whose texts contains the separator. */
  predicate AllWellFormed(segs: seq<Seg>, sep: char) {
    forall j :: 0 <= j < |segs| ==> WellFormed(segs[j]) && sep !in SegmentText(segs[j])
  }

  /** A separator that cannot occur in the text of a segment whose name is a word. */
  predicate NonWordSeparator(sep: char) {
    !IsWordChar(sep) && sep != '[' && sep != ']'
  }

  function Texts(segs: seq<Seg>): (r: seq<string>)
    ensures |r| == |segs|
    decreases |segs|
  {
    if segs == [] then [] else [SegmentText(segs[0])] + Texts(segs[1..])
  }

  /** The path string that addresses a sequence of segments. */
  function PathOf(segs: seq<Seg>, sep: char): string {
    Join(Texts(segs), sep)
  }

  /** Printing a well-formed segment and parsing it back gives the segment. */
  lemma ParseText(g: Seg)
    requires WellFormed(g)
    ensures ParseSegment(SegmentText(g)) == g
  {
    var t := SegmentText(g);
    match g
    case Plain(name) =>
    case Indexed(name, index) =>
      var d := Decimal(index);
      assert t[|name|] == '[';
      assert forall i :: 0 <= i < |name| ==> t[i] == name[i];
      assert WordPrefix(t) == |name|;
      assert t[|name| + 1..|t| - 1] == d;
      assert t[..|name|] == name;
      ValueOfDecimal(index);
  }

  /** A segment whose name is a word is well formed, and its text avoids any separator
      that is neither a word character nor a bracket. */
  lemma WordSegment(g: Seg, sep: char)
    requires IsWord(g.name) && NonWordSeparator(sep)
    ensures WellFormed(g) && sep !in SegmentText(g)
  {
    var t := SegmentText(g);
    if g.Plain? {
      assert WordPrefix(t) == |t|;
    }
    forall i | 0 <= i < |t| ensures t[i] != sep {
      if g.Indexed? && |g.name| <= i {
        var d := Decimal(g.index);
        if |g.name| < i < |t| - 1 {
          assert t[i] == d[i - |g.name| - 1];
        }
      }
    }
  }

  /** Segments whose names are words are well formed for such a separator. */
  lemma WordSegments(segs: seq<Seg>, sep: char)
    requires forall j :: 0 <= j < |segs| ==> IsWord(segs[j].name)
    requires NonWordSeparator(sep)
    ensures AllWellFormed(segs, sep)
  {
    forall j | 0 <= j < |segs| ensures WellFormed(segs[j]) && sep !in SegmentText(segs[j]) {
      WordSegment(segs[j], sep);
    }
  }

  lemma {:induction false} TextsAreFragments(segs: seq<Seg>, sep: char)
    requires AllWellFormed(segs, sep)
    ensures Fragments(Texts(segs), sep)
    ensures forall j :: 0 <= j < |segs| ==> ParseSegment(Texts(segs)[j]) == segs[j]
    decreases |segs|
  {
    if segs != [] {
      assert AllWellFormed(segs[1..], sep) by {
        forall j | 0 <= j < |segs[1..]| ensures WellFormed(segs[1..][j]) && sep !in SegmentText(segs[1..][j]) {
          assert segs[1..][j] == segs[j + 1];
        }
      }
      TextsAreFragments(segs[1..], sep);
      ParseText(segs[0]);
      var r := Texts(segs);
      forall j | 0 <= j < |segs| ensures r[j] != "" && sep !in r[j] && ParseSegment(r[j]) == segs[j] {
        if j > 0 {
          assert r[j] == Texts(segs[1..])[j - 1];
          assert segs[j] == segs[1..][j - 1];
        }
      }
    }
  }

  /** The levels of the path of well-formed segments are the segments' texts, and that
      path is neither empty nor the bare separator. */
  lemma PathLevels(segs: seq<Seg>, sep: char)
    requires segs != [] && AllWellFormed(segs, sep)
    ensures Levels(PathOf(segs, sep), sep) == Texts(segs)
    ensures PathOf(segs, sep) != "" && PathOf(segs, sep) != [sep]
  {
    TextsAreFragments(segs, sep);
    LevelsJoin(Texts(segs), sep);
    JoinNotRoot(Texts(segs), sep);
  }
}
