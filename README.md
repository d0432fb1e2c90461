# Simple COLLADA importer: the `<triangles>` decoder

This project models the data path of a Blender add-on that imports COLLADA (`.dae`) meshes.
The model starts from an already parsed document and ends where Blender objects would be
created. The steps are:

- read the namespace prefix off the root tag, and qualify the child tags with it;
- cut every `<source>`'s `<float_array>` into rows of `stride` numbers;
- map each `<vertices>` pool to its POSITION source;
- for every `<triangles>` block:
  - build the `offset -> (semantic, source, set)` table and derive the interleave stride;
  - resolve the VERTEX input;
  - choose the NORMAL, COLOR and TEXCOORD channels;
  - walk the packed index stream triangle by triangle and corner by corner, with the importer's
    fallback values;
  - drop degenerate triangles;
  - accumulate the faces and the per-corner normals, colours and UVs;
- decide, per `<geometry>`, between a decoded mesh, a skip and an escaping exception;
- have the operator count the meshes and report FINISHED or CANCELLED.

Modules:

- `Elements` (`elements.dfy`): the pre-parsed elements, the `Option` and `Result` types, and
  the Python exceptions that can escape (`IndexError`, `ValueError`).
- `Namespace` (`namespace.dfy`): `get_collada_ns` and `q`.
- `FloatSource` (`float_source.dfy`): `parse_source_float_array`.
- `InputTable` (`input_table.dfy`): the per-block input table and the channel choice.
- `TriangleWalk` (`triangle_walk.dfy`): the triangle and corner loops of one block.
- `GeometryDecoder` (`geometry.dfy`): `build_mesh_from_geometry` up to its final validity
  check, plus the guards of the Blender attachment.
- `Importer` (`importer.dfy`): the geometry search and the counting loop of `execute`.

Each loop of the importer is a method with loop invariants. It is proved equal to a function
that states the same computation as a fold over its input. The properties are lemmas about
those functions.

Python behaviour is modelled explicitly:

- A Python exception that escapes is a `Raise` (or `Raised`, `Crash`, `Crashed`) outcome, not a
  precondition.
- `raw_idx[k]` follows Python list indexing: a negative index counts from the end, and anything
  outside `[-len, len)` raises IndexError.
- `range(0, n, 0)` raises ValueError; a negative step gives an empty range.
- A dictionary keeps first-insertion order, and assigning to an existing key replaces its value
  in place.
- Truthiness is modelled where the code relies on it: an empty list or an empty name counts as
  missing.

Three behaviours of the code shape the model:

- A short index stream only prints a warning. The stream is not cut to whole triangles, and the
  unchecked reads that follow raise IndexError.
- Every NORMAL or COLOR input overwrites the channel, so the last matching input in table order
  decides it.
- Every block with index text reassigns `positions`, so the last such block decides it.

## Model

| member | source | states |
|---|---|---|
| Namespace.GetColladaNs | simple_collada_importer.py:23-27 | the prefix is empty exactly when the root tag does not start with `{`; otherwise it starts with `{`, ends with its only `}`, and is the root tag up to and including its first `}` (the whole tag plus `}` when it has none) |
| Namespace.BeforeBrace | simple_collada_importer.py:25 | `split("}")[0]` is a prefix of the tag that holds no `}` and stops right before the first `}` |
| Namespace.BeforeFirstBrace | simple_collada_importer.py:25 | when the first `}` is at index n-1, `split("}")[0]` is exactly the first n-1 characters |
| Namespace.Qualify | simple_collada_importer.py:30-32 | the qualified tag is the prefix followed by the local tag, of the summed length |
| Namespace.NamespaceRoundTrip | simple_collada_importer.py:23-32 | qualifying the rest of a namespaced root tag with its prefix gives the root tag back |
| Namespace.QualifyInjective | simple_collada_importer.py:30-32 | with one prefix, different tags stay different once qualified |
| Importer.GeometryTag | simple_collada_importer.py:278-286 | under a root tag `{uri}local` the search is for `{uri}geometry`; under a root tag without `{` it is for plain `geometry` |
| Importer.WithTag | simple_collada_importer.py:286 | the search returns at most one geometry per element, only elements carrying the searched tag, and nothing exactly when no element carries it |
| Importer.TagPositionsExactly | simple_collada_importer.py:286 | the positions of the matching elements are listed in increasing order, and are exactly the positions whose element carries the tag |
| Importer.WithTagIsFilter | simple_collada_importer.py:286 | the geometries found are those of the matching elements, one for one and in document order |
| Importer.ExecuteNoGeometry | simple_collada_importer.py:286-289 | `execute` is cancelled for "No geometry found" exactly when no element carries the namespaced `geometry` tag |
| FloatSource.ParseFloats | simple_collada_importer.py:45-49 | the numbers come back exactly when every token is numeric, one per token and in order; otherwise there are none |
| FloatSource.DecodeSourceFailures | simple_collada_importer.py:41-55 | missing text or any non-numeric token yields no rows at all; the only exception is the ValueError of a zero stride over numeric text; a negative stride yields no rows |
| FloatSource.DecodeSourceRows | simple_collada_importer.py:51-60 | with a positive stride s over n numbers there are exactly floor(n/s) rows of width s, row i holds numbers i*s to (i+1)*s-1, and the remainder is dropped |
| FloatSource.DefaultStrideRows | simple_collada_importer.py:51-52 | without an accessor or a `stride` attribute the numbers are read as consecutive triples |
| FloatSource.DecodedRowsWidth | simple_collada_importer.py:54-60 | every decoded row has the same positive width, the stride |
| FloatSource.TuplesCount | simple_collada_importer.py:55-58 | the chunk loop produces q rows with q*s <= n < (q+1)*s, that is q = n / s |
| FloatSource.TuplesAt | simple_collada_importer.py:55-59 | row i is the slice `floats[i*s:(i+1)*s]` |
| FloatSource.RowEntry | simple_collada_importer.py:55-59 | component j of row i is number i*s+j |
| FloatSource.ParseSourceFloatArray | simple_collada_importer.py:41-60 | the stepping loop returns exactly the decoded rows, or the zero-stride ValueError |
| GeometryDecoder.SourceTableLastWins | simple_collada_importer.py:75-78 | the source table raises exactly when one source fails to decode; otherwise every id present maps to the rows of the last source carrying that id |
| GeometryDecoder.SourceTableRaisesValueError | simple_collada_importer.py:75-78 | the only exception the source table raises is ValueError |
| GeometryDecoder.RaiseIsFinalForSources | simple_collada_importer.py:76-78 | an exception while decoding a source ends the loop with that exception |
| GeometryDecoder.BuildSources | simple_collada_importer.py:75-78 | the source loop yields exactly that table or that exception |
| GeometryDecoder.AliasLastWins | simple_collada_importer.py:81-87 | a pool is in `vertices_map` exactly when some assignment names it, and it maps to the last assignment's source id |
| GeometryDecoder.PoolAliasIsLastPosition | simple_collada_importer.py:83-87 | within one `<vertices>`, the last POSITION input decides the alias, which is its `source` without the first character; a pool without POSITION makes no assignment |
| GeometryDecoder.AliasStep | simple_collada_importer.py:84-87 | one more input adds one assignment when it is a POSITION input, and none otherwise |
| GeometryDecoder.BuildVerticesMap | simple_collada_importer.py:81-87 | the nested loop leaves exactly the map of all assignments in document order |
| InputTable.Put | simple_collada_importer.py:112 | assigning to an existing offset keeps its position and replaces its value; a new offset goes to the end; keys stay distinct and the other slots are unchanged |
| InputTable.TableOf | simple_collada_importer.py:104-115 | the table built from the inputs has distinct offsets |
| InputTable.TableKeysFirstSeen | simple_collada_importer.py:104-113 | the table's key order is the order in which each offset first occurs |
| InputTable.TableLastWins | simple_collada_importer.py:104-113 | inputs sharing an offset overwrite each other: each slot holds the entry of the last input with that offset, and an offset has a slot exactly when some input carries it |
| InputTable.NumInputsIsMaxPlusOne | simple_collada_importer.py:105-115 | `num_inputs` is at least 1, exceeds every offset, and is 1 or some offset plus one, that is max(0, max offset) + 1 |
| InputTable.FirstVertex | simple_collada_importer.py:120-124 | the VERTEX loop stops at the first VERTEX slot in key order, and finds none exactly when no slot is VERTEX |
| InputTable.FindVertexInput | simple_collada_importer.py:117-124 | the loop yields that slot's offset and the position source its pool aliases, None when the pool has no alias |
| InputTable.LastWith | simple_collada_importer.py:144-150 | this is the index of the last slot with a given semantic, None when there is none |
| InputTable.LastNormalOrColorWins | simple_collada_importer.py:144-150 | the NORMAL and COLOR picks are the offset and source lookup of the last slot with that semantic, or unset when there is none |
| InputTable.NoTexcoordNoUv | simple_collada_importer.py:151-155 | without a TEXCOORD slot the UV channel stays unset |
| InputTable.TexcoordSetZeroWins | simple_collada_importer.py:151-155 | a TEXCOORD slot with `set="0"` whose source exists keeps the UV pick against every later TEXCOORD slot without `set="0"` |
| InputTable.TexcoordFirstFoundWins | simple_collada_importer.py:151-155 | without any `set="0"` TEXCOORD, the first TEXCOORD whose source exists takes the UV pick, overriding earlier ones whose source is missing |
| InputTable.UvUnfoundBefore | simple_collada_importer.py:151-155 | while every TEXCOORD slot so far names a missing source, the UV source stays unset and the next TEXCOORD overrides it |
| InputTable.PickedSourcesInTable | simple_collada_importer.py:144-155 | a picked NORMAL, COLOR or TEXCOORD source is always one of the decoded sources, `sources.get(src)` |
| InputTable.SelectOptionalChannels | simple_collada_importer.py:135-155 | the channel loop picks exactly the NORMAL, COLOR and TEXCOORD channels above |
| InputTable.BuildInputTable | simple_collada_importer.py:104-115 | the input loop yields exactly that table and that `num_inputs` |
| TriangleWalk.PyIndex | simple_collada_importer.py:174 | `raw_idx[k]` raises IndexError exactly outside `[-len, len)`, reads element k for k >= 0, and element len+k for a negative k |
| TriangleWalk.CornerFallbacks | simple_collada_importer.py:178-206 | an out-of-range index gives normal (0,0,1), colour (1,1,1,1) and UV (0,0); a normal row of width at least two is kept and a narrower one raises ValueError (`Vector` needs two components); a colour row of width 4 is kept, width 3 gets alpha 1, any other width gives white; a UV row gives its first two numbers, and one narrower than two raises IndexError |
| TriangleWalk.ReadCornerValues | simple_collada_importer.py:170-206 | a corner reads its position index at `b + vertex_offset`, and each active channel at its own offset through the fallbacks above; an inactive channel adds nothing |
| TriangleWalk.ReadCornersShape | simple_collada_importer.py:170-206 | each corner read adds one position index and exactly one value to each active channel |
| TriangleWalk.ReadOneCorner | simple_collada_importer.py:170-206 | the reads of one corner, in the order VERTEX, NORMAL, COLOR, TEXCOORD, yield exactly that corner's values or the first exception |
| TriangleWalk.CornersSnoc | simple_collada_importer.py:169-172 | corner v is read at slot `base + v*num_inputs`, after corners 0..v-1: the first exception wins, otherwise its reads are appended |
| TriangleWalk.DegenerateIffRepeated | simple_collada_importer.py:208-210 | `len(set(tri_vertices)) < 3` holds exactly when two of the three indices are equal |
| TriangleWalk.CornersRaiseIsFinal | simple_collada_importer.py:170-206 | an exception while reading a corner ends the triangle with that exception |
| TriangleWalk.CornerRaises | simple_collada_importer.py:170-206 | a corner raises IndexError, or ValueError only when the normal channel is active and its source has a row narrower than two |
| TriangleWalk.CornersRaise | simple_collada_importer.py:170-206 | a triangle's reads raise IndexError, or ValueError only from a normal source with a row narrower than two |
| TriangleWalk.WalkRaises | simple_collada_importer.py:163-215 | the triangle loop raises IndexError, or ValueError only from a normal source with a row narrower than two |
| TriangleWalk.WalkRaiseIsFinal | simple_collada_importer.py:163-215 | an exception in one triangle ends the block's walk with that exception |
| TriangleWalk.WalkAlignment | simple_collada_importer.py:163-215 | the walk only appends and adds at most one face per triangle; an active channel gains exactly three values per added face and an inactive one none |
| TriangleWalk.KeptOfExactly | simple_collada_importer.py:163-212 | the kept positions of a sequence of triangle reads are listed in increasing order, and are exactly those whose read did not raise and is not degenerate |
| TriangleWalk.KeptExactly | simple_collada_importer.py:163-212 | the kept triangles of a block are, in increasing order, exactly those among the first n whose corners read without raising and whose three position indices are distinct |
| TriangleWalk.KeptSnoc | simple_collada_importer.py:163-212 | triangle n-1 is appended to the kept triangles exactly when it is kept |
| TriangleWalk.KeptPartsAreKept | simple_collada_importer.py:163-212 | the reads listed for the kept triangles are, one for one, the reads of the triangles at the kept indices |
| TriangleWalk.KeptPartsAt | simple_collada_importer.py:163-212 | the j-th kept triangle lies before n, read without raising, and has three corners in each active channel |
| TriangleWalk.WalkStep | simple_collada_importer.py:163-212 | a walk over n triangles that does not raise extends the walk over n-1 by triangle n-1 when it is kept, and leaves it unchanged otherwise |
| TriangleWalk.WalkReadsOk | simple_collada_importer.py:163-206 | when the walk over n triangles does not raise, every one of those triangles read without raising |
| TriangleWalk.KeepAppends | simple_collada_importer.py:211-215 | keeping one more triangle appends its face to `faces` and its corner values to each channel |
| TriangleWalk.WalkIsKept | simple_collada_importer.py:163-215 | the walk appends exactly the faces of the kept triangles, in order, and exactly their corner values to each channel, in order; nothing else is appended |
| TriangleWalk.JoinAllCorner | simple_collada_importer.py:211-215 | after the corner values of several triangles are appended in turn, entry `3*j+v` of an active channel is corner v of the j-th triangle |
| TriangleWalk.CornerShape | simple_collada_importer.py:170-206 | a corner that reads without raising gives one position index, one value per active channel and none for an inactive one |
| TriangleWalk.CornerAt | simple_collada_importer.py:169-206 | corner v of a triangle is the value read at slot `base + v*num_inputs` |
| TriangleWalk.WalkCornerValues | simple_collada_importer.py:163-215 | face j of the walk holds the raw position indices of the j-th kept triangle, and entry `3*j+v` of each active channel is the normal, colour or UV read for that triangle's corner v at slot `Kept[j]*3*num_inputs + v*num_inputs` plus the channel's offset |
| TriangleWalk.WalkFaces | simple_collada_importer.py:208-212 | every added face has three pairwise distinct indices and is the vertex triple of one of the triangles read |
| TriangleWalk.TriangleReadsInStream | simple_collada_importer.py:169-206 | a triangle whose slots lie inside the stream, with offsets below `num_inputs` and normal and UV rows at least two wide, reads without raising |
| TriangleWalk.LongStreamNeverRaises | simple_collada_importer.py:157-215 | a stream of at least `count*3*num_inputs` indices, with offsets in `[0, num_inputs)` and normal and UV rows at least two wide, never raises: the warning's threshold is the right one |
| TriangleWalk.ReadTriangleCorners | simple_collada_importer.py:169-206 | the corner loop yields exactly the three corner reads, or their first exception |
| TriangleWalk.WalkTriangles | simple_collada_importer.py:162-215 | the triangle loop for `range(count)` yields exactly the walk over max(count, 0) triangles: the first exception, or the faces and corner values of the kept triangles appended in order |
| GeometryDecoder.GeomName | simple_collada_importer.py:72 | the name is never empty: the `name` attribute, else the `id`, else "DAE_Mesh", an empty attribute counting as missing |
| GeometryDecoder.WithIndices | simple_collada_importer.py:100-102 | the kept blocks are exactly those with index text |
| GeometryDecoder.BlocksWithoutIndicesIgnored | simple_collada_importer.py:100-102 | blocks with no `<p>` or empty `<p>` text change nothing: dropping them gives the same result |
| GeometryDecoder.SkippedTail | simple_collada_importer.py:100-102 | trailing blocks without index text leave the state as it was |
| GeometryDecoder.StopIsFinal | simple_collada_importer.py:126-133 | a block that gives up or raises ends the block loop; later blocks are never looked at |
| GeometryDecoder.LastBlockPositions | simple_collada_importer.py:130 | after the loop, `positions` is the source looked up by the last block with index text |
| GeometryDecoder.ProcessBlockPositions | simple_collada_importer.py:117-133 | a block with index text whose processing lets the loop go on leaves `positions` as the source its VERTEX input resolves to |
| GeometryDecoder.FoldPrefixNext | simple_collada_importer.py:97-102 | the loop over the first k+1 blocks is block k processed after the loop over the first k |
| GeometryDecoder.BlockPositions | simple_collada_importer.py:117-133 | a block with index text that lets the loop go on sets `positions` to the source its VERTEX input resolves to |
| GeometryDecoder.FoldPositionsAndFaces | simple_collada_importer.py:97-215 | positions are set exactly when some block had index text, and are then non-empty; every face is three distinct indices |
| GeometryDecoder.BlockKeepsFaces | simple_collada_importer.py:130-212 | a block with index text that lets the loop go on leaves non-empty positions and adds only faces of three distinct indices |
| GeometryDecoder.FoldLast | simple_collada_importer.py:97-102 | the loop's state after the last block is that block's processing of the state before it, or the same state when it has no index text |
| GeometryDecoder.BlockChannelLength | simple_collada_importer.py:177-215 | one block adds three values per added face to a channel it reads, and none to another |
| GeometryDecoder.AddTriples | simple_collada_importer.py:213-215 | adding three values per face keeps a channel's length a multiple of three |
| GeometryDecoder.FoldChannelStep | simple_collada_importer.py:105-215 | one block adds three values to a corner channel per face it adds when it has index text and reads the channel, and none otherwise |
| GeometryDecoder.FoldChannelLengths | simple_collada_importer.py:105-215 | across blocks each corner channel holds a multiple of three values and at most three per face |
| GeometryDecoder.FoldChannelAllRead | simple_collada_importer.py:105-215 | a channel every block with index text reads holds exactly three values per face |
| GeometryDecoder.FoldChannelNoneRead | simple_collada_importer.py:105-215 | a channel no block with index text reads stays empty |
| GeometryDecoder.FoldCrashErrors | simple_collada_importer.py:97-215 | a block loop that raises does so with IndexError, or with ValueError only when a decoded source has a row narrower than two |
| GeometryDecoder.BlockFailureSkipsGeometry | simple_collada_importer.py:126-133 | a block that gives up skips the whole geometry for its reason, whatever the later blocks hold |
| GeometryDecoder.MissingVertexSkipsGeometry | simple_collada_importer.py:117-128 | a block with no VERTEX input, or whose VERTEX pool has no POSITION alias, skips the whole geometry as "Missing POSITION source" |
| GeometryDecoder.EmptyPositionsSkipsGeometry | simple_collada_importer.py:130-133 | a resolved position source that is missing or has no rows skips the whole geometry as "Position source missing" |
| GeometryDecoder.NoValidGeometryExactly | simple_collada_importer.py:217-219 | after a complete loop the geometry is skipped exactly when no block had index text or no face was kept, and is otherwise built from the final positions and accumulators |
| GeometryDecoder.BuiltMeshShape | simple_collada_importer.py:72-219 | a built mesh has a non-empty name, positions, at least one face, three distinct indices per face, and corner channels of a multiple of three values with at most three per face |
| GeometryDecoder.GeometryExceptions | simple_collada_importer.py:75-215 | a source that fails to decode makes the geometry raise ValueError; a ValueError comes from such a source or from a decoded source with a row too narrow for a normal vector; no exception other than ValueError or IndexError escapes |
| GeometryDecoder.ProcessTriangles | simple_collada_importer.py:97-215 | one iteration of the block loop yields exactly the block's effect described above |
| GeometryDecoder.BuildMeshFromGeometry | simple_collada_importer.py:65-219 | the function's loops yield exactly the decoded outcome: no `<mesh>`, a block failure, an exception, "no valid geometry", or the mesh data |
| GeometryDecoder.Written | simple_collada_importer.py:235-250 | a corner layer receives the first min(values, loops) values of the list, as a prefix, so all of them when the list fits |
| GeometryDecoder.AttachedCorners | simple_collada_importer.py:235-254 | with one loop per face corner, every UV and colour of a built mesh is written, and custom normals are set whenever every block read a normal channel |
| Importer.ImportCountRaises | simple_collada_importer.py:291-295 | the counting loop raises exactly when some geometry raises |
| Importer.ImportCountIsBuiltCount | simple_collada_importer.py:291-295 | without an exception, `imported` is the number of geometries that became meshes, at most the number of geometries |
| Importer.ImportRaiseIsFinal | simple_collada_importer.py:291-295 | an exception from one geometry ends the counting loop |
| Importer.ReportOutcomes | simple_collada_importer.py:286-302 | the operator finishes exactly when some geometry becomes a mesh and none raises, and then reports that count; an exception escapes exactly when some geometry raises; it is cancelled for "no geometry" exactly when none is found and for "no objects" exactly when none raises and none becomes a mesh |
| Importer.CountImported | simple_collada_importer.py:290-294 | the loop over the geometries yields exactly the number of meshes built, or the first exception |
| Importer.ExecuteImport | simple_collada_importer.py:268-302 | `execute` is cancelled for a parse failure or when no geometry is found, and otherwise reports the counting loop's result as above |

## Left out

- XML parsing (`ET.parse`, `find`, `findall`) and file access are not modelled. The document
  arrives pre-parsed: each element holds the children and attributes the importer reads, already
  found under the document's namespace, and a parse failure is the `None` document. Only the
  search for `<geometry>` elements by qualified tag is modelled.
- Python's `int()` conversion of `count`, `offset`, `stride` and the `<p>` text is not
  modelled. These values arrive as integers, so the ValueError that non-integer text would raise
  is not modelled.
- Python's `float()` is modelled only as a classification of each token into a number or not.
  Numbers are opaque: no arithmetic is done on them.
- The printed messages and the short-stream warning are not modelled; they have no effect on the
  result.
- The Blender calls are foreign host API and are not modelled: mesh and object creation,
  `from_pydata`, the UV, colour and normal layers, linking into the collection, the pi/2
  rotation, and `mathutils.Vector` beyond its refusal of a row with fewer than two components.
  Only their guards are stated (`Written`, `NormalsSet`), and the loop count is taken to be
  three per face. Any exception Blender itself raises (for
  example for a face index beyond the position rows) is not modelled, and a built mesh always
  counts as an imported object.
- The operator's report texts, the choice of collection, the menu entry, and
  `register`/`unregister` are UI glue and are not modelled.
