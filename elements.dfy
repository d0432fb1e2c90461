/** The pre-parsed COLLADA elements the importer reads, and the small value types shared by
    every stage of the decoder.

    The XML tree itself (ElementTree's `find`/`findall`) is not modelled: each element below
    holds exactly the children and attributes the importer looks up, already found under the
    document's namespace and in document order. Attribute texts that the importer passes through
    Python's `int()` are held as integers; a missing attribute is `None`. */
module Elements {

  datatype Option<T> = None | Some(value: T)

  /** `d.get(key, default)`-style access to an optional attribute. */
  function GetOr<T>(o: Option<T>, default: T): T
  {
    match o
    case Some(v) => v
    case None => default
  }

  /** The Python exceptions that can escape the decoder and, through it, the import operator. */
  datatype PyError = IndexError | ValueError

  /** A value, or the Python exception raised while computing it. */
  datatype Result<T> = Ok(value: T) | Raise(error: PyError)

  /** One whitespace-separated token of a `<float_array>` text. `Num` when Python's `float()`
      accepts the token (its value is treated as opaque), `NotNum` when it raises ValueError. */
  datatype Token = Num(value: real) | NotNum(text: string)

  /** One decoded row of a source: `stride` numbers. */
  type Tuple = seq<real>

  /** `<technique_common><accessor stride=...>` */
  datatype Accessor = Accessor(stride: Option<int>)

  /** `<source id=...>`: `floatArray` is None when there is no `<float_array>` or it has no text,
      otherwise the tokens of its text. */
  datatype Source = Source(id: Option<string>, floatArray: Option<seq<Token>>, accessor: Option<Accessor>)

  /** `<input semantic=... source=... offset=... set=...>` (`set` is held as `setIndex`) */
  datatype Input = Input(semantic: Option<string>, source: Option<string>, offset: Option<int>, setIndex: Option<string>)

  /** `<vertices id=...>` with its `<input>` children. */
  datatype Vertices = Vertices(id: Option<string>, inputs: seq<Input>)

  /** `<triangles count=...>` with its `<input>` children; `p` is None when there is no `<p>` or its
      text is empty, otherwise the integers of its text (whitespace-only text gives `Some([])`). */
  datatype Triangles = Triangles(count: Option<int>, inputs: seq<Input>, p: Option<seq<int>>)

  /** `<mesh>` with its `<source>`, `<vertices>` and `<triangles>` children in document order. */
  datatype Mesh = Mesh(sources: seq<Source>, vertices: seq<Vertices>, triangles: seq<Triangles>)

  /** `<geometry id=... name=...>`; `mesh` is None when it has no `<mesh>` child. */
  datatype Geometry = Geometry(id: Option<string>, name: Option<string>, mesh: Option<Mesh>)

  /** An element below the root: its (possibly namespaced) tag, and what the decoder would read
      from it as a `<geometry>`. */
  datatype Node = Node(tag: string, geometry: Geometry)

  /** A parsed document: the root element's tag and every element below the root, in document
      order. */
  datatype Document = Document(rootTag: string, descendants: seq<Node>)
}
