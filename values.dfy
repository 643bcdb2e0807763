/** The configuration tree as the YAML loader hands it over, and the
    Python notions of it that the configuration class relies on. */
module Values {

  datatype Option<T> = None | Some(value: T)

  /** A loaded plugin module, as returned by the plugin source's loader. */
  type Handle = int

  /** A node of the parsed configuration document.
      Dict models a Python dict in insertion order (the YAML loader gives
      unique keys); Plugin is a loaded plugin module written back into the
      tree by plugin resolution; Other stands for None, numbers and booleans,
      of which only their truth value matters here. */
  datatype Value =
    | Dict(entries: seq<(string, Value)>)
    | List(items: seq<Value>)
    | Str(text: string)
    | Plugin(handle: Handle)
    | Other(truthy: bool)

  /** The Python `None`. */
  const Null: Value := Other(false)

  /** Python truthiness: empty containers and empty strings are false, a
      module object is true. */
  predicate Truthy(v: Value)
  {
    match v
    case Dict(e) => |e| > 0
    case List(items) => |items| > 0
    case Str(s) => |s| > 0
    case Plugin(_) => true
    case Other(t) => t
  }

  /** The keys of a mapping are pairwise distinct, as in every Python dict. */
  ghost predicate UniqueKeys(e: seq<(string, Value)>)
  {
    forall i, j :: 0 <= i < j < |e| ==> e[i].0 != e[j].0
  }
}
