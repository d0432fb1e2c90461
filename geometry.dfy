/** `build_mesh_from_geometry` up to the final "no valid geometry" check: the source table, the
    `<vertices>` alias map, the per-block processing of every `<triangles>` element, and the
    outcome for one `<geometry>` element. The Blender object built from a decoded mesh is not
    part of this model; the outcome carries the decoded data the object would be built from. */
module GeometryDecoder {
  import opened Elements
  import FloatSource
  import opened InputTable
  import opened TriangleWalk

  // ---------------------------------------------------------------------------------------
  // The source table
  // ---------------------------------------------------------------------------------------

  /** `sources[src_id] = parse_source_float_array(src, ns)` for every `<source>` in order; a
      later source with the same id replaces an earlier one, and an exception raised by the
      decoder escapes. */
  function SourceTableOf(srcs: seq<Source>): Result<SourceTable>
  {
    if |srcs| == 0 then Ok(map[])
    else
      var prev := SourceTableOf(srcs[..|srcs| - 1]);
      var last := srcs[|srcs| - 1];
      if prev.Raise? then prev
      else
        var rows := FloatSource.DecodeSource(last);
        if rows.Raise? then Raise(rows.error) else Ok(prev.value[last.id := rows.value])
  }

  /** The last source carrying `id`, if any. */
  function LastSourceWith(srcs: seq<Source>, id: Option<string>): (r: Option<Source>)
    ensures r.Some? ==> r.value in srcs && r.value.id == id
  {
    if |srcs| == 0 then None
    else if srcs[|srcs| - 1].id == id then Some(srcs[|srcs| - 1])
    else LastSourceWith(srcs[..|srcs| - 1], id)
  }

  /** The table raises exactly when one of the sources fails to decode; otherwise it holds an
      entry for every id that occurs, and that entry is the decoding of the last source carrying
      the id. */
  lemma {:induction false} SourceTableLastWins(srcs: seq<Source>)
    ensures SourceTableOf(srcs).Raise? <==> exists i | 0 <= i < |srcs| :: FloatSource.DecodeSource(srcs[i]).Raise?
    ensures SourceTableOf(srcs).Ok? ==>
              forall id :: && (id in SourceTableOf(srcs).value <==> LastSourceWith(srcs, id).Some?)
                           && (id in SourceTableOf(srcs).value ==>
                                 FloatSource.DecodeSource(LastSourceWith(srcs, id).value)
                                   == Ok(SourceTableOf(srcs).value[id]))
  {
    if |srcs| > 0 {
      var init := srcs[..|srcs| - 1];
      var last := srcs[|srcs| - 1];
      SourceTableLastWins(init);
      if SourceTableOf(init).Raise? {
        var i :| 0 <= i < |init| && FloatSource.DecodeSource(init[i]).Raise?;
        assert srcs[i] == init[i];
      } else if FloatSource.DecodeSource(last).Raise? {
      } else {
        forall i | 0 <= i < |srcs| ensures FloatSource.DecodeSource(srcs[i]).Ok? {
          if i < |init| {
            assert srcs[i] == init[i];
          }
        }
      }
    }
  }

  /** The loop that fills `sources`. */
  method BuildSources(srcs: seq<Source>) returns (r: Result<SourceTable>)
    ensures r == SourceTableOf(srcs)
  {
    var sources: SourceTable := map[];
    var i := 0;
    while i < |srcs|
      invariant 0 <= i <= |srcs|
      invariant SourceTableOf(srcs[..i]) == Ok(sources)
    {
      assert srcs[..i + 1][..i] == srcs[..i];
      var rows := FloatSource.ParseSourceFloatArray(srcs[i]);
      if rows.Raise? {
        RaiseIsFinalForSources(srcs, i + 1);
        return Raise(rows.error);
      }
      sources := sources[srcs[i].id := rows.value];
      i := i + 1;
    }
    assert srcs[..|srcs|] == srcs;
    return Ok(sources);
  }

  /** Once a prefix of the sources raises, the whole table raises with the same error. */
  lemma {:induction false} RaiseIsFinalForSources(srcs: seq<Source>, k: nat)
    requires k <= |srcs| && SourceTableOf(srcs[..k]).Raise?
    ensures SourceTableOf(srcs) == SourceTableOf(srcs[..k])
    decreases |srcs| - k
  {
    if k < |srcs| {
      assert srcs[..k + 1][..k] == srcs[..k];
      RaiseIsFinalForSources(srcs, k + 1);
    } else {
      assert srcs[..k] == srcs;
    }
  }

  // ---------------------------------------------------------------------------------------
  // The vertices alias map
  // ---------------------------------------------------------------------------------------

  /** One assignment `vertices_map[v_id] = pos_id`. */
  datatype Alias = Alias(pool: Option<string>, position: string)

  /** The assignments the inputs of one `<vertices>` element make: one per POSITION input, in
      order. */
  function PoolAliases(id: Option<string>, inputs: seq<Input>): seq<Alias>
  {
    if |inputs| == 0 then []
    else
      var last := inputs[|inputs| - 1];
      PoolAliases(id, inputs[..|inputs| - 1])
      + (if last.semantic == Some("POSITION") then [Alias(id, StripRef(last.source))] else [])
  }

  /** Every assignment the nested `<vertices>` loop makes, in order. */
  function AliasesOf(vs: seq<Vertices>): seq<Alias>
  {
    if |vs| == 0 then []
    else AliasesOf(vs[..|vs| - 1]) + PoolAliases(vs[|vs| - 1].id, vs[|vs| - 1].inputs)
  }

  /** The dictionary the assignments leave behind. */
  function MapOf(aliases: seq<Alias>): map<Option<string>, string>
  {
    if |aliases| == 0 then map[]
    else
      var last := aliases[|aliases| - 1];
      MapOf(aliases[..|aliases| - 1])[last.pool := last.position]
  }

  /** `vertices_map` after the `<vertices>` loop. */
  function VerticesMap(vs: seq<Vertices>): map<Option<string>, string>
  {
    MapOf(AliasesOf(vs))
  }

  /** The target of the last assignment to `pool`, if any. */
  function LastAliasOf(aliases: seq<Alias>, pool: Option<string>): Option<string>
  {
    if |aliases| == 0 then None
    else if aliases[|aliases| - 1].pool == pool then Some(aliases[|aliases| - 1].position)
    else LastAliasOf(aliases[..|aliases| - 1], pool)
  }

  /** A pool is in the map exactly when some assignment names it, and it maps to the target of
      the last such assignment. */
  lemma {:induction false} AliasLastWins(aliases: seq<Alias>)
    ensures forall pool :: && (pool in MapOf(aliases) <==> LastAliasOf(aliases, pool).Some?)
                           && (pool in MapOf(aliases) ==> MapOf(aliases)[pool] == LastAliasOf(aliases, pool).value)
  {
    if |aliases| > 0 {
      AliasLastWins(aliases[..|aliases| - 1]);
    }
  }

  /** The last POSITION input of a list, if any. */
  function LastPosition(inputs: seq<Input>): Option<Input>
  {
    if |inputs| == 0 then None
    else if inputs[|inputs| - 1].semantic == Some("POSITION") then Some(inputs[|inputs| - 1])
    else LastPosition(inputs[..|inputs| - 1])
  }

  /** Within one `<vertices>` element the last POSITION input decides the alias, which is its
      `source` attribute with the leading `#` removed; a pool with no POSITION input makes no
      assignment at all. */
  lemma {:induction false} PoolAliasIsLastPosition(id: Option<string>, inputs: seq<Input>)
    ensures LastPosition(inputs).None? <==> PoolAliases(id, inputs) == []
    ensures LastAliasOf(PoolAliases(id, inputs), id)
            == if LastPosition(inputs).None? then None else Some(StripRef(LastPosition(inputs).value.source))
    ensures forall a | a in PoolAliases(id, inputs) :: a.pool == id
  {
    if |inputs| > 0 {
      PoolAliasIsLastPosition(id, inputs[..|inputs| - 1]);
    }
  }

  /** One more input of a pool: a POSITION input adds one assignment, any other input none. */
  lemma PoolAliasesStep(id: Option<string>, inputs: seq<Input>, j: nat)
    requires j < |inputs|
    ensures PoolAliases(id, inputs[..j + 1])
            == PoolAliases(id, inputs[..j])
               + (if inputs[j].semantic == Some("POSITION") then [Alias(id, StripRef(inputs[j].source))] else [])
  {
    assert inputs[..j + 1][..j] == inputs[..j];
  }

  /** One more assignment overwrites (or adds) the entry of its pool. */
  lemma MapOfSnoc(before: seq<Alias>, a: Alias)
    ensures MapOf(before + [a]) == MapOf(before)[a.pool := a.position]
  {
    assert (before + [a])[..|before|] == before;
  }

  /** The alias map after one more input of a pool. */
  lemma AliasStep(done: seq<Alias>, id: Option<string>, inputs: seq<Input>, j: nat)
    requires j < |inputs|
    ensures MapOf(done + PoolAliases(id, inputs[..j + 1]))
            == if inputs[j].semantic == Some("POSITION")
               then MapOf(done + PoolAliases(id, inputs[..j]))[id := StripRef(inputs[j].source)]
               else MapOf(done + PoolAliases(id, inputs[..j]))
  {
    PoolAliasesStep(id, inputs, j);
    var before := done + PoolAliases(id, inputs[..j]);
    if inputs[j].semantic == Some("POSITION") {
      var a := Alias(id, StripRef(inputs[j].source));
      assert done + PoolAliases(id, inputs[..j + 1]) == before + [a];
      MapOfSnoc(before, a);
    } else {
      assert done + PoolAliases(id, inputs[..j + 1]) == before;
    }
  }

  /** The nested loop over `<vertices>` elements and their inputs. */
  method BuildVerticesMap(vs: seq<Vertices>) returns (verticesMap: map<Option<string>, string>)
    ensures verticesMap == VerticesMap(vs)
  {
    verticesMap := map[];
    var i := 0;
    while i < |vs|
      invariant 0 <= i <= |vs|
      invariant verticesMap == MapOf(AliasesOf(vs[..i]))
    {
      var vId := vs[i].id;
      var inputs := vs[i].inputs;
      ghost var done := AliasesOf(vs[..i]);
      var j := 0;
      assert done + PoolAliases(vId, inputs[..0]) == done;
      while j < |inputs|
        invariant 0 <= j <= |inputs|
        invariant verticesMap == MapOf(done + PoolAliases(vId, inputs[..j]))
      {
        AliasStep(done, vId, inputs, j);
        if inputs[j].semantic == Some("POSITION") {
          var posId := StripRef(inputs[j].source);
          verticesMap := verticesMap[vId := posId];
        }
        j := j + 1;
      }
      assert inputs[..|inputs|] == inputs;
      assert vs[..i + 1][..i] == vs[..i];
      i := i + 1;
    }
    assert vs[..|vs|] == vs;
  }

  // ---------------------------------------------------------------------------------------
  // The <triangles> blocks
  // ---------------------------------------------------------------------------------------

  /** Why the decoder gives up on a geometry: no `<mesh>`, a block whose VERTEX input is missing
      or names a pool with no POSITION alias, a position source that is missing or empty, or no
      positions or faces at the end. Each is a printed message and `return None`. */
  datatype Failure = NoMesh | MissingPosition | EmptyPositions | NoValidGeometry

  /** The function-level `positions` variable and the accumulators. */
  datatype GeomState = GeomState(positions: Option<seq<Tuple>>, acc: Acc)

  /** After a block: carry on with the new state, give up on the geometry, or an exception. */
  datatype Flow = Continue(st: GeomState) | Abort(why: Failure) | Crash(err: PyError)

  function Start(): GeomState
  {
    GeomState(None, Acc([], [], [], []))
  }

  /** `xxx_offset is not None and xxx_source`: a channel is read only when it was picked and its
      source exists and has at least one row. */
  function Active(pick: Pick): Option<Channel>
  {
    if pick.offset.Some? && pick.source.Some? && |pick.source.value| > 0
    then Some(Channel(pick.offset.value, pick.source.value))
    else None
  }

  /** The channels a block picks from its input table. */
  function ChannelsOf(blk: Triangles, sources: SourceTable): Channels
  {
    SelectChannels(TableOf(blk.inputs), sources)
  }

  /** The interleaving of a block's index stream. */
  function LayoutOf(blk: Triangles, vertexOffset: int, sources: SourceTable): Layout
  {
    var c := ChannelsOf(blk, sources);
    Layout(NumInputs(blk.inputs), vertexOffset, Active(c.normal), Active(c.color), Active(c.uv))
  }

  /** One iteration of the `<triangles>` loop. A block without index text is skipped; otherwise
      its VERTEX input must resolve to a non-empty position source, which becomes `positions`,
      and its triangles are appended to the accumulators. */
  function ProcessBlock(st: GeomState, blk: Triangles, sources: SourceTable,
                        verticesMap: map<Option<string>, string>): Flow
  {
    if blk.p.None? then Continue(st)
    else
      var resolved := ResolveVertex(TableOf(blk.inputs), verticesMap);
      if resolved.0.None? || resolved.1.None? then Abort(MissingPosition)
      else
        var positions := Lookup(sources, resolved.1.value);
        if positions.None? || |positions.value| == 0 then Abort(EmptyPositions)
        else
          var w := LayoutOf(blk, resolved.0.value, sources);
          var r := Walk(st.acc, blk.p.value, w, TriangleCount(GetOr(blk.count, 0)));
          if r.Raise? then Crash(r.error) else Continue(GeomState(positions, r.value))
  }

  /** One more block after `prev`: a failure or an exception ends the loop. */
  function Next(prev: Flow, blk: Triangles, sources: SourceTable,
                verticesMap: map<Option<string>, string>): Flow
  {
    if !prev.Continue? then prev else ProcessBlock(prev.st, blk, sources, verticesMap)
  }

  /** The state after the first blocks. */
  function FoldBlocks(blocks: seq<Triangles>, sources: SourceTable,
                      verticesMap: map<Option<string>, string>): Flow
  {
    if |blocks| == 0 then Continue(Start())
    else Next(FoldBlocks(blocks[..|blocks| - 1], sources, verticesMap), blocks[|blocks| - 1], sources, verticesMap)
  }

  /** The block loop over `init + [blk]` is one more block after the loop over `init`. */
  lemma FoldSnoc(init: seq<Triangles>, blk: Triangles, sources: SourceTable,
                 verticesMap: map<Option<string>, string>)
    ensures FoldBlocks(init + [blk], sources, verticesMap) == Next(FoldBlocks(init, sources, verticesMap), blk, sources, verticesMap)
  {
    assert (init + [blk])[..|init|] == init;
  }

  /** `geom_name`: the `name` attribute, else the `id`, else "DAE_Mesh"; an empty attribute
      counts as missing. */
  function GeomName(g: Geometry): (name: string)
    ensures |name| > 0
    ensures g.name.Some? && |g.name.value| > 0 ==> name == g.name.value
    ensures !(g.name.Some? && |g.name.value| > 0) && g.id.Some? && |g.id.value| > 0 ==> name == g.id.value
    ensures !(g.name.Some? && |g.name.value| > 0) && !(g.id.Some? && |g.id.value| > 0) ==> name == "DAE_Mesh"
  {
    if g.name.Some? && |g.name.value| > 0 then g.name.value
    else if g.id.Some? && |g.id.value| > 0 then g.id.value
    else "DAE_Mesh"
  }

  /** The decoded data a Blender mesh is built from: the position rows, the faces, and the
      per-corner normals, colours and UVs. */
  datatype MeshData = MeshData(name: string, positions: seq<Tuple>, faces: seq<seq<int>>,
                               norms: seq<Tuple>, cols: seq<Rgba>, uvs: seq<Uv>)

  /** `build_mesh_from_geometry`'s outcome: a mesh, `None` for a stated reason, or an exception
      that escapes the function. */
  datatype GeomOutcome = Built(mesh: MeshData) | Skipped(why: Failure) | Raised(err: PyError)

  /** The outcome of decoding one `<geometry>` element. */
  function DecodeGeometry(g: Geometry): GeomOutcome
  {
    if g.mesh.None? then Skipped(NoMesh)
    else
      var m := g.mesh.value;
      var sources := SourceTableOf(m.sources);
      if sources.Raise? then Raised(sources.error)
      else
        match FoldBlocks(m.triangles, sources.value, VerticesMap(m.vertices))
        case Abort(why) => Skipped(why)
        case Crash(e) => Raised(e)
        case Continue(st) =>
          if st.positions.None? || |st.positions.value| == 0 || |st.acc.faces| == 0 then Skipped(NoValidGeometry)
          else Built(MeshData(GeomName(g), st.positions.value, st.acc.faces, st.acc.norms, st.acc.cols, st.acc.uvs))
  }

  // ---------------------------------------------------------------------------------------
  // Properties of the block loop
  // ---------------------------------------------------------------------------------------

  /** A failure or an exception ends the block loop: the blocks after it are never looked at. */
  lemma {:induction false} StopIsFinal(blocks: seq<Triangles>, sources: SourceTable,
                                       verticesMap: map<Option<string>, string>, k: nat)
    requires k <= |blocks| && !FoldBlocks(blocks[..k], sources, verticesMap).Continue?
    ensures FoldBlocks(blocks, sources, verticesMap) == FoldBlocks(blocks[..k], sources, verticesMap)
    decreases |blocks| - k
  {
    if k < |blocks| {
      assert blocks[..k + 1][..k] == blocks[..k];
      StopIsFinal(blocks, sources, verticesMap, k + 1);
    } else {
      assert blocks[..k] == blocks;
    }
  }

  /** The blocks that have index text. */
  function WithIndices(blocks: seq<Triangles>): (r: seq<Triangles>)
    ensures forall b | b in r :: b in blocks && b.p.Some?
    ensures forall b | b in blocks && b.p.Some? :: b in r
  {
    if |blocks| == 0 then []
    else WithIndices(blocks[..|blocks| - 1])
         + (if blocks[|blocks| - 1].p.Some? then [blocks[|blocks| - 1]] else [])
  }

  /** Blocks without `<p>` text change nothing: dropping them gives the same result. */
  lemma {:induction false} BlocksWithoutIndicesIgnored(blocks: seq<Triangles>, sources: SourceTable,
                                                       verticesMap: map<Option<string>, string>)
    ensures FoldBlocks(WithIndices(blocks), sources, verticesMap) == FoldBlocks(blocks, sources, verticesMap)
  {
    if |blocks| > 0 {
      var init := blocks[..|blocks| - 1];
      var last := blocks[|blocks| - 1];
      BlocksWithoutIndicesIgnored(init, sources, verticesMap);
      assert blocks == init + [last];
      FoldSnoc(init, last, sources, verticesMap);
      if last.p.Some? {
        assert WithIndices(blocks) == WithIndices(init) + [last];
        FoldSnoc(WithIndices(init), last, sources, verticesMap);
      } else {
        assert WithIndices(blocks) == WithIndices(init);
      }
    }
  }

  /** A trailing run of blocks without index text leaves the state as it was. */
  lemma {:induction false} SkippedTail(blocks: seq<Triangles>, sources: SourceTable,
                                       verticesMap: map<Option<string>, string>, k: nat)
    requires k <= |blocks| && forall j | k <= j < |blocks| :: blocks[j].p.None?
    ensures FoldBlocks(blocks, sources, verticesMap) == FoldBlocks(blocks[..k], sources, verticesMap)
  {
    if |blocks| > k {
      var init := blocks[..|blocks| - 1];
      SkippedTail(init, sources, verticesMap, k);
      assert init[..k] == blocks[..k];
    } else {
      assert blocks[..k] == blocks;
    }
  }

  /** `positions` is overwritten by every block: when the loop runs to the end, it holds the
      position rows resolved by the last block with index text. */
  lemma LastBlockPositions(blocks: seq<Triangles>, sources: SourceTable,
                           verticesMap: map<Option<string>, string>, k: nat)
    requires FoldBlocks(blocks, sources, verticesMap).Continue?
    requires k < |blocks| && blocks[k].p.Some?
    requires forall j | k < j < |blocks| :: blocks[j].p.None?
    ensures var resolved := ResolveVertex(TableOf(blocks[k].inputs), verticesMap);
            && resolved.1.Some?
            && FoldBlocks(blocks, sources, verticesMap).st.positions == Lookup(sources, resolved.1.value)
  {
    SkippedTail(blocks, sources, verticesMap, k + 1);
    FoldPrefixNext(blocks, sources, verticesMap, k);
    BlockPositions(FoldBlocks(blocks[..k], sources, verticesMap), blocks[k], sources, verticesMap);
  }

  /** The loop over the first k + 1 blocks is block k after the loop over the first k. */
  lemma FoldPrefixNext(blocks: seq<Triangles>, sources: SourceTable,
                       verticesMap: map<Option<string>, string>, k: nat)
    requires k < |blocks|
    ensures FoldBlocks(blocks[..k + 1], sources, verticesMap)
            == Next(FoldBlocks(blocks[..k], sources, verticesMap), blocks[k], sources, verticesMap)
  {
    assert blocks[..k + 1][..k] == blocks[..k];
  }

  /** A block with index text that lets the loop go on sets `positions` to the source its
      VERTEX input resolves to. */
  lemma BlockPositions(prev: Flow, blk: Triangles, sources: SourceTable,
                       verticesMap: map<Option<string>, string>)
    requires blk.p.Some? && Next(prev, blk, sources, verticesMap).Continue?
    ensures var resolved := ResolveVertex(TableOf(blk.inputs), verticesMap);
            && resolved.1.Some?
            && Next(prev, blk, sources, verticesMap).st.positions == Lookup(sources, resolved.1.value)
  {
    assert prev.Continue?;
    ProcessBlockPositions(prev.st, blk, sources, verticesMap);
  }

  /** The positions a block with index text leaves when the loop goes on. */
  lemma ProcessBlockPositions(st: GeomState, blk: Triangles, sources: SourceTable,
                              verticesMap: map<Option<string>, string>)
    requires blk.p.Some? && ProcessBlock(st, blk, sources, verticesMap).Continue?
    ensures var resolved := ResolveVertex(TableOf(blk.inputs), verticesMap);
            && resolved.1.Some?
            && ProcessBlock(st, blk, sources, verticesMap).st.positions == Lookup(sources, resolved.1.value)
  {
  }

  /** What a completed block loop leaves behind: positions are set exactly when some block had
      index text, and then hold at least one row; every face is three distinct position indices. */
  lemma {:induction false} FoldPositionsAndFaces(blocks: seq<Triangles>, sources: SourceTable,
                                                 verticesMap: map<Option<string>, string>)
    requires FoldBlocks(blocks, sources, verticesMap).Continue?
    ensures var st := FoldBlocks(blocks, sources, verticesMap).st;
            && (st.positions.Some? <==> exists j | 0 <= j < |blocks| :: blocks[j].p.Some?)
            && (st.positions.Some? ==> |st.positions.value| > 0)
            && (forall f | f in st.acc.faces :: |f| == 3 && !Degenerate(f))
  {
    if |blocks| > 0 {
      var init := blocks[..|blocks| - 1];
      var last := blocks[|blocks| - 1];
      FoldLast(blocks, sources, verticesMap);
      FoldPositionsAndFaces(init, sources, verticesMap);
      if last.p.Some? {
        BlockKeepsFaces(FoldBlocks(init, sources, verticesMap).st, last, sources, verticesMap);
      } else if exists j | 0 <= j < |blocks| :: blocks[j].p.Some? {
        var j :| 0 <= j < |blocks| && blocks[j].p.Some?;
        assert init[j] == blocks[j];
      }
    }
  }

  /** A block with index text that lets the loop go on leaves a non-empty `positions`, and adds
      only faces of three distinct position indices. */
  lemma BlockKeepsFaces(st0: GeomState, blk: Triangles, sources: SourceTable,
                        verticesMap: map<Option<string>, string>)
    requires blk.p.Some? && ProcessBlock(st0, blk, sources, verticesMap).Continue?
    requires forall f | f in st0.acc.faces :: |f| == 3 && !Degenerate(f)
    ensures var st := ProcessBlock(st0, blk, sources, verticesMap).st;
            && st.positions.Some? && |st.positions.value| > 0
            && forall f | f in st.acc.faces :: |f| == 3 && !Degenerate(f)
  {
    var resolved := ResolveVertex(TableOf(blk.inputs), verticesMap);
    var w := LayoutOf(blk, resolved.0.value, sources);
    var n := TriangleCount(GetOr(blk.count, 0));
    WalkFaces(st0.acc, blk.p.value, w, n);
    WalkAlignment(st0.acc, blk.p.value, w, n);
    var st := ProcessBlock(st0, blk, sources, verticesMap).st;
    assert st.acc == Walk(st0.acc, blk.p.value, w, n).value;
    forall f | f in st.acc.faces ensures |f| == 3 && !Degenerate(f) {
      var k :| 0 <= k < |st.acc.faces| && st.acc.faces[k] == f;
      if k < |st0.acc.faces| {
        assert st0.acc.faces[k] == f;
      }
    }
  }

  /** The three per-corner channels. */
  datatype Kind = NormalKind | ColorKind | UvKind

  /** The number of corner values a channel has accumulated. */
  function CornerCount(a: Acc, k: Kind): nat
  {
    match k
    case NormalKind => |a.norms|
    case ColorKind => |a.cols|
    case UvKind => |a.uvs|
  }

  function PickFor(c: Channels, k: Kind): Pick
  {
    match k
    case NormalKind => c.normal
    case ColorKind => c.color
    case UvKind => c.uv
  }

  /** The block reads channel k for every corner. */
  predicate ChannelActive(blk: Triangles, sources: SourceTable, k: Kind)
  {
    Active(PickFor(ChannelsOf(blk, sources), k)).Some?
  }

  /** One block's effect on a channel's length: three values per added face when the block
      reads the channel, none otherwise. */
  lemma BlockChannelLength(st: GeomState, blk: Triangles, sources: SourceTable,
                           verticesMap: map<Option<string>, string>, k: Kind)
    requires blk.p.Some? && ProcessBlock(st, blk, sources, verticesMap).Continue?
    ensures var a := ProcessBlock(st, blk, sources, verticesMap).st.acc;
            && |a.faces| >= |st.acc.faces|
            && CornerCount(a, k) == CornerCount(st.acc, k)
                                    + (if ChannelActive(blk, sources, k) then 3 * (|a.faces| - |st.acc.faces|) else 0)
  {
    var resolved := ResolveVertex(TableOf(blk.inputs), verticesMap);
    var w := LayoutOf(blk, resolved.0.value, sources);
    WalkAlignment(st.acc, blk.p.value, w, TriangleCount(GetOr(blk.count, 0)));
  }

  /** Every block with index text reads channel k. */
  predicate AllRead(blocks: seq<Triangles>, sources: SourceTable, k: Kind)
  {
    |blocks| == 0
    || (&& AllRead(blocks[..|blocks| - 1], sources, k)
        && (blocks[|blocks| - 1].p.Some? ==> ChannelActive(blocks[|blocks| - 1], sources, k)))
  }

  /** No block with index text reads channel k. */
  predicate NoneRead(blocks: seq<Triangles>, sources: SourceTable, k: Kind)
  {
    |blocks| == 0
    || (&& NoneRead(blocks[..|blocks| - 1], sources, k)
        && (blocks[|blocks| - 1].p.Some? ==> !ChannelActive(blocks[|blocks| - 1], sources, k)))
  }

  /** Unrolls the block loop by its last block. */
  lemma FoldLast(blocks: seq<Triangles>, sources: SourceTable, verticesMap: map<Option<string>, string>)
    requires |blocks| > 0 && FoldBlocks(blocks, sources, verticesMap).Continue?
    ensures FoldBlocks(blocks[..|blocks| - 1], sources, verticesMap).Continue?
    ensures var st0 := FoldBlocks(blocks[..|blocks| - 1], sources, verticesMap).st;
            var last := blocks[|blocks| - 1];
            FoldBlocks(blocks, sources, verticesMap)
            == if last.p.None? then Continue(st0) else ProcessBlock(st0, last, sources, verticesMap)
  {
  }

  lemma {:induction false} AddTriples(c: int, d: nat)
    ensures (c + 3 * d) % 3 == c % 3
  {
    if d > 0 {
      AddTriples(c, d - 1);
      assert c + 3 * d == (c + 3 * (d - 1)) + 3;
    }
  }

  /** A count that is a multiple of three and at most three per face stays so when a block adds
      either three values per added face or none. */
  lemma TriplesStep(c0: int, f0: int, c: int, f: int, adds: bool)
    requires c0 % 3 == 0 && c0 <= 3 * f0 && f >= f0
    requires c == c0 + (if adds then 3 * (f - f0) else 0)
    ensures c % 3 == 0 && c <= 3 * f
  {
    if adds {
      AddTriples(c0, f - f0);
    }
  }

  /** One step of the block loop on a channel's length: a block with index text that reads the
      channel adds three values per added face, any other block adds none. */
  lemma FoldChannelStep(blocks: seq<Triangles>, sources: SourceTable,
                        verticesMap: map<Option<string>, string>, k: Kind)
    requires |blocks| > 0 && FoldBlocks(blocks, sources, verticesMap).Continue?
    ensures FoldBlocks(blocks[..|blocks| - 1], sources, verticesMap).Continue?
    ensures var a0 := FoldBlocks(blocks[..|blocks| - 1], sources, verticesMap).st.acc;
            var a := FoldBlocks(blocks, sources, verticesMap).st.acc;
            var last := blocks[|blocks| - 1];
            && |a.faces| >= |a0.faces|
            && CornerCount(a, k) == CornerCount(a0, k)
                                    + (if last.p.Some? && ChannelActive(last, sources, k)
                                       then 3 * (|a.faces| - |a0.faces|) else 0)
  {
    FoldLast(blocks, sources, verticesMap);
    var last := blocks[|blocks| - 1];
    if last.p.Some? {
      var st0 := FoldBlocks(blocks[..|blocks| - 1], sources, verticesMap).st;
      BlockChannelLength(st0, last, sources, verticesMap, k);
    }
  }

  /** Corner channels stay aligned with the faces across blocks: each holds a multiple of three
      values and at most three per face. */
  lemma {:induction false} FoldChannelLengths(blocks: seq<Triangles>, sources: SourceTable,
                                              verticesMap: map<Option<string>, string>, k: Kind)
    requires FoldBlocks(blocks, sources, verticesMap).Continue?
    ensures var a := FoldBlocks(blocks, sources, verticesMap).st.acc;
            CornerCount(a, k) % 3 == 0 && CornerCount(a, k) <= 3 * |a.faces|
  {
    if |blocks| > 0 {
      var init := blocks[..|blocks| - 1];
      FoldChannelStep(blocks, sources, verticesMap, k);
      FoldChannelLengths(init, sources, verticesMap, k);
      var a0 := FoldBlocks(init, sources, verticesMap).st.acc;
      var a := FoldBlocks(blocks, sources, verticesMap).st.acc;
      var last := blocks[|blocks| - 1];
      TriplesStep(CornerCount(a0, k), |a0.faces|, CornerCount(a, k), |a.faces|,
                  last.p.Some? && ChannelActive(last, sources, k));
    }
  }

  /** A channel that every block with index text reads holds exactly three values per face. */
  lemma {:induction false} FoldChannelAllRead(blocks: seq<Triangles>, sources: SourceTable,
                                              verticesMap: map<Option<string>, string>, k: Kind)
    requires FoldBlocks(blocks, sources, verticesMap).Continue? && AllRead(blocks, sources, k)
    ensures var a := FoldBlocks(blocks, sources, verticesMap).st.acc;
            CornerCount(a, k) == 3 * |a.faces|
  {
    if |blocks| > 0 {
      FoldChannelStep(blocks, sources, verticesMap, k);
      FoldChannelAllRead(blocks[..|blocks| - 1], sources, verticesMap, k);
    }
  }

  /** A channel that no block with index text reads stays empty. */
  lemma {:induction false} FoldChannelNoneRead(blocks: seq<Triangles>, sources: SourceTable,
                                               verticesMap: map<Option<string>, string>, k: Kind)
    requires FoldBlocks(blocks, sources, verticesMap).Continue? && NoneRead(blocks, sources, k)
    ensures CornerCount(FoldBlocks(blocks, sources, verticesMap).st.acc, k) == 0
  {
    if |blocks| > 0 {
      FoldChannelStep(blocks, sources, verticesMap, k);
      FoldChannelNoneRead(blocks[..|blocks| - 1], sources, verticesMap, k);
    }
  }

  /** A block loop that crashes does so from the triangle walk: with IndexError, or with
      ValueError when one of the decoded sources has a row too narrow for a normal vector. */
  lemma {:induction false} FoldCrashErrors(blocks: seq<Triangles>, sources: SourceTable,
                                           verticesMap: map<Option<string>, string>)
    requires FoldBlocks(blocks, sources, verticesMap).Crash?
    ensures var e := FoldBlocks(blocks, sources, verticesMap).err;
            || e == IndexError
            || (e == ValueError && exists rows | rows in sources.Values :: HasNarrowRow(rows))
  {
    var init := blocks[..|blocks| - 1];
    var last := blocks[|blocks| - 1];
    var prev := FoldBlocks(init, sources, verticesMap);
    if prev.Crash? {
      FoldCrashErrors(init, sources, verticesMap);
    } else {
      var resolved := ResolveVertex(TableOf(last.inputs), verticesMap);
      var w := LayoutOf(last, resolved.0.value, sources);
      WalkRaises(prev.st.acc, last.p.value, w, TriangleCount(GetOr(last.count, 0)));
      PickedSourcesInTable(TableOf(last.inputs), sources);
    }
  }

  // ---------------------------------------------------------------------------------------
  // Properties of the outcome
  // ---------------------------------------------------------------------------------------

  /** A block that gives up ends the whole geometry, whatever the blocks after it hold. */
  lemma BlockFailureSkipsGeometry(g: Geometry, k: nat)
    requires g.mesh.Some? && SourceTableOf(g.mesh.value.sources).Ok?
    requires k < |g.mesh.value.triangles|
    requires var sources, vmap := SourceTableOf(g.mesh.value.sources).value, VerticesMap(g.mesh.value.vertices);
             var prev := FoldBlocks(g.mesh.value.triangles[..k], sources, vmap);
             prev.Continue? && ProcessBlock(prev.st, g.mesh.value.triangles[k], sources, vmap).Abort?
    ensures var sources, vmap := SourceTableOf(g.mesh.value.sources).value, VerticesMap(g.mesh.value.vertices);
            var prev := FoldBlocks(g.mesh.value.triangles[..k], sources, vmap);
            DecodeGeometry(g) == Skipped(ProcessBlock(prev.st, g.mesh.value.triangles[k], sources, vmap).why)
  {
    var m := g.mesh.value;
    var sources, vmap := SourceTableOf(m.sources).value, VerticesMap(m.vertices);
    assert m.triangles[..k + 1][..k] == m.triangles[..k];
    StopIsFinal(m.triangles, sources, vmap, k + 1);
  }

  /** A block with index text whose inputs have no VERTEX, or whose VERTEX names a pool with no
      POSITION alias, skips the geometry with "Missing POSITION source", even when other blocks
      are complete. */
  lemma MissingVertexSkipsGeometry(g: Geometry, k: nat)
    requires g.mesh.Some? && SourceTableOf(g.mesh.value.sources).Ok?
    requires k < |g.mesh.value.triangles| && g.mesh.value.triangles[k].p.Some?
    requires FoldBlocks(g.mesh.value.triangles[..k], SourceTableOf(g.mesh.value.sources).value,
                        VerticesMap(g.mesh.value.vertices)).Continue?
    requires var t := TableOf(g.mesh.value.triangles[k].inputs);
             FirstVertex(t).None? || Some(t[FirstVertex(t).value].entry.source) !in VerticesMap(g.mesh.value.vertices)
    ensures DecodeGeometry(g) == Skipped(MissingPosition)
  {
    BlockFailureSkipsGeometry(g, k);
  }

  /** A block whose VERTEX resolves to a position source id that no `<source>` carries, or
      whose source decoded to no rows, skips the geometry with "Position source missing". */
  lemma EmptyPositionsSkipsGeometry(g: Geometry, k: nat)
    requires g.mesh.Some? && SourceTableOf(g.mesh.value.sources).Ok?
    requires k < |g.mesh.value.triangles| && g.mesh.value.triangles[k].p.Some?
    requires FoldBlocks(g.mesh.value.triangles[..k], SourceTableOf(g.mesh.value.sources).value,
                        VerticesMap(g.mesh.value.vertices)).Continue?
    requires var resolved := ResolveVertex(TableOf(g.mesh.value.triangles[k].inputs), VerticesMap(g.mesh.value.vertices));
             && resolved.0.Some? && resolved.1.Some?
             && var positions := Lookup(SourceTableOf(g.mesh.value.sources).value, resolved.1.value);
                positions.None? || |positions.value| == 0
    ensures DecodeGeometry(g) == Skipped(EmptyPositions)
  {
    BlockFailureSkipsGeometry(g, k);
  }

  /** A built mesh is well formed: a non-empty name, at least one position row and one face,
      every face three distinct position indices, and every corner channel a multiple of three
      values with at most three per face. */
  lemma BuiltMeshShape(g: Geometry)
    requires DecodeGeometry(g).Built?
    ensures var m := DecodeGeometry(g).mesh;
            && m.name == GeomName(g) && |m.name| > 0
            && |m.positions| > 0 && |m.faces| > 0
            && (forall f | f in m.faces :: |f| == 3 && !Degenerate(f))
            && |m.norms| % 3 == 0 && |m.norms| <= 3 * |m.faces|
            && |m.cols| % 3 == 0 && |m.cols| <= 3 * |m.faces|
            && |m.uvs| % 3 == 0 && |m.uvs| <= 3 * |m.faces|
  {
    var mesh := g.mesh.value;
    var sources, vmap := SourceTableOf(mesh.sources).value, VerticesMap(mesh.vertices);
    FoldPositionsAndFaces(mesh.triangles, sources, vmap);
    FoldChannelLengths(mesh.triangles, sources, vmap, NormalKind);
    FoldChannelLengths(mesh.triangles, sources, vmap, ColorKind);
    FoldChannelLengths(mesh.triangles, sources, vmap, UvKind);
  }

  /** The exceptions that escape: a `<source>` that fails to decode (a zero stride) raises
      ValueError; a ValueError comes from such a source or from a decoded source with a row too
      narrow for a normal vector; the only other exception is the triangle walk's IndexError. */
  lemma GeometryExceptions(g: Geometry)
    ensures g.mesh.Some? && (exists i | 0 <= i < |g.mesh.value.sources| ::
                               FloatSource.DecodeSource(g.mesh.value.sources[i]).Raise?)
            ==> DecodeGeometry(g) == Raised(ValueError)
    ensures DecodeGeometry(g) == Raised(ValueError)
            ==> && g.mesh.Some?
                && ((exists i | 0 <= i < |g.mesh.value.sources| ::
                       FloatSource.DecodeSource(g.mesh.value.sources[i]).Raise?)
                    || (exists i | 0 <= i < |g.mesh.value.sources| ::
                          && FloatSource.DecodeSource(g.mesh.value.sources[i]).Ok?
                          && HasNarrowRow(FloatSource.DecodeSource(g.mesh.value.sources[i]).value)))
    ensures DecodeGeometry(g).Raised? ==> DecodeGeometry(g).err in {ValueError, IndexError}
  {
    if g.mesh.Some? {
      var mesh := g.mesh.value;
      SourceTableLastWins(mesh.sources);
      var sources := SourceTableOf(mesh.sources);
      if sources.Raise? {
        SourceTableRaisesValueError(mesh.sources);
      } else {
        var flow := FoldBlocks(mesh.triangles, sources.value, VerticesMap(mesh.vertices));
        if flow.Crash? {
          FoldCrashErrors(mesh.triangles, sources.value, VerticesMap(mesh.vertices));
          if flow.err == ValueError {
            var rows :| rows in sources.value.Values && HasNarrowRow(rows);
            var id :| id in sources.value && sources.value[id] == rows;
            var s := LastSourceWith(mesh.sources, id).value;
            var i :| 0 <= i < |mesh.sources| && mesh.sources[i] == s;
            assert FloatSource.DecodeSource(mesh.sources[i]) == Ok(rows);
          }
        }
      }
    }
  }

  /** The source table can only raise the decoder's ValueError. */
  lemma {:induction false} SourceTableRaisesValueError(srcs: seq<Source>)
    requires SourceTableOf(srcs).Raise?
    ensures SourceTableOf(srcs).error == ValueError
  {
    var init := srcs[..|srcs| - 1];
    if SourceTableOf(init).Raise? {
      SourceTableRaisesValueError(init);
    } else {
      FloatSource.DecodeSourceFailures(srcs[|srcs| - 1]);
    }
  }

  /** Once the block loop completes, the geometry is skipped as "No valid geometry" exactly when
      no block had index text or no face was kept; otherwise it is built from the position rows
      of the last block with index text and the accumulated faces and corners. */
  lemma NoValidGeometryExactly(g: Geometry)
    requires g.mesh.Some? && SourceTableOf(g.mesh.value.sources).Ok?
    requires FoldBlocks(g.mesh.value.triangles, SourceTableOf(g.mesh.value.sources).value,
                        VerticesMap(g.mesh.value.vertices)).Continue?
    ensures var blocks := g.mesh.value.triangles;
            var st := FoldBlocks(blocks, SourceTableOf(g.mesh.value.sources).value, VerticesMap(g.mesh.value.vertices)).st;
            && (DecodeGeometry(g) == Skipped(NoValidGeometry)
                <==> (forall j | 0 <= j < |blocks| :: blocks[j].p.None?) || |st.acc.faces| == 0)
            && (DecodeGeometry(g).Built? ==>
                  DecodeGeometry(g).mesh == MeshData(GeomName(g), st.positions.value, st.acc.faces,
                                                     st.acc.norms, st.acc.cols, st.acc.uvs))
  {
    var m := g.mesh.value;
    FoldPositionsAndFaces(m.triangles, SourceTableOf(m.sources).value, VerticesMap(m.vertices));
  }

  // ---------------------------------------------------------------------------------------
  // The guards of the Blender attachment
  // ---------------------------------------------------------------------------------------

  /** The corner values written to a layer with `loops` entries: value li is written only when
      `li < len(layer.data)`. */
  function Written<T>(values: seq<T>, loops: nat): (w: seq<T>)
    ensures |w| <= loops && |w| <= |values|
    ensures w == values[..|w|]
    ensures |values| <= loops ==> w == values
    ensures |w| == if |values| <= loops then |values| else loops
  {
    if |values| <= loops then values else values[..loops]
  }

  /** `corner_norms and len(corner_norms) == len(mesh.loops)`: custom normals are set only for a
      non-empty list with one normal per loop. */
  predicate NormalsSet(m: MeshData, loops: nat)
  {
    |m.norms| > 0 && |m.norms| == loops
  }

  /** With one loop per face corner, every UV and colour value of a built mesh is written, and
      the custom normals are set whenever every block with index text read a normal channel. */
  lemma AttachedCorners(g: Geometry)
    requires DecodeGeometry(g).Built?
    ensures var m := DecodeGeometry(g).mesh;
            && Written(m.uvs, 3 * |m.faces|) == m.uvs
            && Written(m.cols, 3 * |m.faces|) == m.cols
            && (AllRead(g.mesh.value.triangles, SourceTableOf(g.mesh.value.sources).value, NormalKind) ==>
                  NormalsSet(m, 3 * |m.faces|))
  {
    BuiltMeshShape(g);
    var mesh := g.mesh.value;
    var sources, vmap := SourceTableOf(mesh.sources).value, VerticesMap(mesh.vertices);
    if AllRead(mesh.triangles, sources, NormalKind) {
      FoldChannelAllRead(mesh.triangles, sources, vmap, NormalKind);
    }
  }

  // ---------------------------------------------------------------------------------------
  // The loops
  // ---------------------------------------------------------------------------------------

  /** The body of the `<triangles>` loop for one block. */
  method ProcessTriangles(st: GeomState, blk: Triangles, sources: SourceTable,
                          verticesMap: map<Option<string>, string>) returns (f: Flow)
    ensures f == ProcessBlock(st, blk, sources, verticesMap)
  {
    if blk.p.None? {
      return Continue(st);
    }
    var t, numInputs := BuildInputTable(blk.inputs);
    var vertexOffset, posSourceId := FindVertexInput(t, verticesMap);
    if vertexOffset.None? || posSourceId.None? {
      return Abort(MissingPosition);
    }
    var positions := Lookup(sources, posSourceId.value);
    if positions.None? || |positions.value| == 0 {
      return Abort(EmptyPositions);
    }
    var c := SelectOptionalChannels(t, sources);
    var w := Layout(numInputs, vertexOffset.value, Active(c.normal), Active(c.color), Active(c.uv));
    var r := WalkTriangles(st.acc, blk.p.value, GetOr(blk.count, 0), w);
    if r.Raise? {
      return Crash(r.error);
    }
    return Continue(GeomState(positions, r.value));
  }

  /** `build_mesh_from_geometry` up to the "No valid geometry" check. */
  method BuildMeshFromGeometry(g: Geometry) returns (r: GeomOutcome)
    ensures r == DecodeGeometry(g)
  {
    if g.mesh.None? {
      return Skipped(NoMesh);
    }
    var mesh := g.mesh.value;
    var geomName := GeomName(g);
    var sources := BuildSources(mesh.sources);
    if sources.Raise? {
      return Raised(sources.error);
    }
    var verticesMap := BuildVerticesMap(mesh.vertices);
    var st := Start();
    var k := 0;
    while k < |mesh.triangles|
      invariant 0 <= k <= |mesh.triangles|
      invariant FoldBlocks(mesh.triangles[..k], sources.value, verticesMap) == Continue(st)
    {
      assert mesh.triangles[..k + 1][..k] == mesh.triangles[..k];
      var flow := ProcessTriangles(st, mesh.triangles[k], sources.value, verticesMap);
      if !flow.Continue? {
        StopIsFinal(mesh.triangles, sources.value, verticesMap, k + 1);
        return if flow.Abort? then Skipped(flow.why) else Raised(flow.err);
      }
      st := flow.st;
      k := k + 1;
    }
    assert mesh.triangles[..|mesh.triangles|] == mesh.triangles;
    if st.positions.None? || |st.positions.value| == 0 || |st.acc.faces| == 0 {
      return Skipped(NoValidGeometry);
    }
    return Built(MeshData(geomName, st.positions.value, st.acc.faces, st.acc.norms, st.acc.cols, st.acc.uvs));
  }
}
