/**
 * The caller's side of gjm.go: a map handed to the exported functions, which
 * change it in place.
 */
module Documents {
  import opened Values
  import opened Resolver
  import Engine

  /** A caller's document: the map every exported function is handed and changes in place. */
  class Document {
    var data: Doc

    constructor (initial: Doc)
      ensures data == initial
    {
      data := initial;
    }

    /** Reading never changes the document. */
    method GetProperty(path: string, separator: string) returns (parsed: Value, err: Option<Error>)
      requires |separator| <= 1
      ensures err == ErrorOf(Get(data, path, Engine.SeparatorOf(separator)))
      ensures parsed == if err.None? then Get(data, path, Engine.SeparatorOf(separator)).value else Null
    {
      parsed, err := Engine.GetProperty(data, path, separator);
    }

    method DeleteProperty(path: string, separator: string) returns (err: Option<Error>)
      requires |separator| <= 1
      modifies this
      ensures Outcome(data, err) == Delete(old(data), path, Engine.SeparatorOf(separator))
    {
      data, err := Engine.DeleteProperty(data, path, separator);
    }

    method AddProperty(path: string, separator: string, value: Value) returns (err: Option<Error>)
      requires |separator| <= 1
      modifies this
      ensures Outcome(data, err) == Add(old(data), path, Engine.SeparatorOf(separator), value)
    {
      data, err := Engine.AddProperty(data, path, separator, value);
    }

    method UpdateProperty(path: string, separator: string, value: Value) returns (err: Option<Error>)
      requires |separator| == 1
      modifies this
      ensures Outcome(data, err) == Update(old(data), path, separator[0], value)
    {
      data, err := Engine.UpdateProperty(data, path, separator, value);
    }
  }
}
