/**
 * The three slice rebuilds of gjm.go: DeleteProperty copies a slice leaving
 * out one index, AddProperty copies it and appends past the end, and
 * UpdateProperty copies it with one index replaced (appending past the end).
 * Each loop is a method proved against a function on sequences.
 */
module Slices {

  /** The sequence with the element at index removed; unchanged if there is none. */
  function Without<T>(items: seq<T>, index: nat): (r: seq<T>)
    ensures index < |items| ==> |r| == |items| - 1
    ensures index < |items| ==> forall j :: 0 <= j < index ==> r[j] == items[j]
    ensures index < |items| ==> forall j :: index <= j < |r| ==> r[j] == items[j + 1]
    ensures index >= |items| ==> r == items
  {
    if index < |items| then items[..index] + items[index + 1..] else items
  }

  /** The sequence with value appended when index is at or past the end; unchanged otherwise. */
  function Appended<T>(items: seq<T>, index: nat, value: T): (r: seq<T>)
    ensures index >= |items| ==> |r| == |items| + 1 && r[..|items|] == items && r[|items|] == value
    ensures index < |items| ==> r == items
  {
    if index >= |items| then items + [value] else items
  }

  /** The sequence with the element at index replaced, or value appended when index is past the end. */
  function Replaced<T>(items: seq<T>, index: nat, value: T): (r: seq<T>)
    ensures |r| == if index < |items| then |items| else |items| + 1
    ensures forall j :: 0 <= j < |items| && j != index ==> r[j] == items[j]
    ensures r[if index < |items| then index else |items|] == value
  {
    if index < |items| then items[index := value] else items + [value]
  }

  /** The delete loop (gjm.go:200-205 and 213-218): keep every element whose position is not index. */
  method RemoveAt<T>(items: seq<T>, index: nat) returns (slices: seq<T>)
    ensures slices == Without(items, index)
  {
    slices := [];
    var i := 0;
    while i < |items|
      invariant 0 <= i <= |items|
      invariant slices == if i <= index then items[..i] else items[..index] + items[index + 1..i]
    {
      if i != index {
        slices := slices + [items[i]];
      }
      i := i + 1;
    }
    assert items[..i] == items;
  }

  /** The add loop (gjm.go:354-360): copy every element, then append when index is at or past the end. */
  method CopyAppend<T>(items: seq<T>, index: nat, value: T) returns (slices: seq<T>)
    ensures slices == Appended(items, index, value)
  {
    slices := [];
    var i := 0;
    while i < |items|
      invariant 0 <= i <= |items|
      invariant slices == items[..i]
    {
      slices := slices + [items[i]];
      i := i + 1;
    }
    assert items[..i] == items;
    if index >= |items| {
      slices := slices + [value];
    }
  }

  /** The update loop (gjm.go:481-491): copy with the element at index replaced, then append
      when index is at or past the end. */
  method ReplaceAt<T>(items: seq<T>, index: nat, value: T) returns (slices: seq<T>)
    ensures slices == Replaced(items, index, value)
  {
    slices := [];
    var i := 0;
    while i < |items|
      invariant 0 <= i <= |items|
      invariant |slices| == i
      invariant forall j :: 0 <= j < i ==> slices[j] == if j == index then value else items[j]
    {
      if i != index {
        slices := slices + [items[i]];
      } else {
        slices := slices + [value];
      }
      i := i + 1;
    }
    if index >= |items| {
      slices := slices + [value];
    }
  }
}
