/** The runtime values the engine inspects, in place of .NET reflection. A value knows the
    text its own `ToString()` gives (which may be null) and, when it is not null, the name
    `GetType().Name` reports for it. */
module Values {
  import opened Wrappers

  /** The element of an array or collection, seen only through `item?.ToString()`:
      `None` is a null element or a `ToString()` that returned null. */
  type ElementText = Option<string>

  datatype Value =
    | Null
      /** A `string`; its `ToString()` is itself and its type name is `String`. */
    | Str(s: string)
      /** A `char`; its `ToString()` is the one-character string and its type name is `Char`. */
    | Chr(c: char)
      /** A `System.Array` (type name such as `Int32[]`) with its elements in enumeration order. */
    | Arr(typeName: string, text: Option<string>, elems: seq<ElementText>)
      /** Any other `IEnumerable` that is not a string (type name such as ``List`1``). */
    | Coll(typeName: string, text: Option<string>, elems: seq<ElementText>)
      /** Anything else: numbers, booleans, arbitrary objects. */
    | Other(typeName: string, text: Option<string>)

  /** `GetType().Name` of a non-null value. */
  function RuntimeTypeName(v: Value): string
    requires !v.Null?
  {
    match v
    case Str(_) => "String"
    case Chr(_) => "Char"
    case Arr(t, _, _) => t
    case Coll(t, _, _) => t
    case Other(t, _) => t
  }

  /** What `ToString()` returns for a non-null value. */
  function ToStringText(v: Value): Option<string>
    requires !v.Null?
  {
    match v
    case Str(s) => Some(s)
    case Chr(c) => Some([c])
    case Arr(_, t, _) => t
    case Coll(_, t, _) => t
    case Other(_, t) => t
  }

  /** `text ?? "null"`. */
  function OrNull(text: Option<string>): string
  {
    match text
    case Some(t) => t
    case None => "null"
  }
}
