/** The per-block input table of `build_mesh_from_geometry`: the `offset -> (semantic, source,
    set)` dictionary built from a `<triangles>` block's `<input>` children, the interleave stride
    derived from it, the VERTEX lookup and the choice of the NORMAL, COLOR and TEXCOORD channels.

    Python dictionaries keep their keys in first-insertion order and an assignment to an existing
    key replaces its value in place, so the table is an ordered list of slots with distinct
    offsets and `Put` is that assignment. */
module InputTable {
  import opened Elements

  /** `attrib.get("source", "")[1:]`: the reference with its leading `#` (any first character)
      removed; "" when the attribute is missing or empty. */
  function StripRef(ref: Option<string>): string
  {
    var s := GetOr(ref, "");
    if |s| == 0 then "" else s[1..]
  }

  /** The value stored for an offset: (semantic, source id, set). */
  datatype Entry = Entry(semantic: Option<string>, source: string, setIndex: Option<string>)

  /** One key/value pair of `input_by_offset`. */
  datatype Slot = Slot(offset: int, entry: Entry)

  /** `int(inp.attrib.get("offset", "0"))` */
  function OffsetOf(inp: Input): int
  {
    GetOr(inp.offset, 0)
  }

  function EntryOf(inp: Input): Entry
  {
    Entry(inp.semantic, StripRef(inp.source), inp.setIndex)
  }

  function Offsets(inputs: seq<Input>): (os: seq<int>)
    ensures |os| == |inputs| && forall i | 0 <= i < |inputs| :: os[i] == OffsetOf(inputs[i])
  {
    seq(|inputs|, i requires 0 <= i < |inputs| => OffsetOf(inputs[i]))
  }

  function Keys(t: seq<Slot>): (ks: seq<int>)
    ensures |ks| == |t| && forall i | 0 <= i < |t| :: ks[i] == t[i].offset
  {
    seq(|t|, i requires 0 <= i < |t| => t[i].offset)
  }

  predicate Distinct(s: seq<int>)
  {
    forall i, j | 0 <= i < j < |s| :: s[i] != s[j]
  }

  /** `d[k] = e` on a dictionary: an existing key keeps its position and takes the new value, a
      new key goes to the end. */
  function Put(t: seq<Slot>, k: int, e: Entry): (r: seq<Slot>)
    requires Distinct(Keys(t))
    ensures Distinct(Keys(r))
    ensures Keys(r) == Keys(t) + (if k in Keys(t) then [] else [k])
    ensures forall i | 0 <= i < |t| && t[i].offset != k :: r[i] == t[i]
    ensures forall i | 0 <= i < |r| && r[i].offset == k :: r[i].entry == e
  {
    if |t| == 0 then [Slot(k, e)]
    else if t[0].offset == k then
      KeysCons(Slot(k, e), t[1..]);
      KeysCons(t[0], t[1..]);
      assert t == [t[0]] + t[1..];
      [Slot(k, e)] + t[1..]
    else
      var rest := Put(t[1..], k, e);
      KeysCons(t[0], t[1..]);
      assert t == [t[0]] + t[1..];
      KeysCons(t[0], rest);
      DistinctCons(t[0].offset, Keys(rest));
      [t[0]] + rest
  }

  lemma KeysCons(x: Slot, t: seq<Slot>)
    ensures Keys([x] + t) == [x.offset] + Keys(t)
  {
  }

  lemma DistinctCons(a: int, s: seq<int>)
    requires a !in s && Distinct(s)
    ensures Distinct([a] + s)
  {
  }

  /** `input_by_offset` after the loop over the block's inputs. */
  function TableOf(inputs: seq<Input>): (t: seq<Slot>)
    ensures Distinct(Keys(t))
  {
    if |inputs| == 0 then []
    else
      var n := |inputs| - 1;
      Put(TableOf(inputs[..n]), OffsetOf(inputs[n]), EntryOf(inputs[n]))
  }

  /** `max_offset` after the loop: it starts at 0. */
  function MaxOffset(inputs: seq<Input>): int
  {
    if |inputs| == 0 then 0
    else
      var n := |inputs| - 1;
      var m := MaxOffset(inputs[..n]);
      if OffsetOf(inputs[n]) > m then OffsetOf(inputs[n]) else m
  }

  /** `num_inputs`, the interleave stride of the block's index stream. */
  function NumInputs(inputs: seq<Input>): int
  {
    MaxOffset(inputs) + 1
  }

  /** `num_inputs == max(0, max offset) + 1`: it exceeds every offset, is at least 1, and is 1 or
      one more than some input's offset. */
  lemma {:induction false} NumInputsIsMaxPlusOne(inputs: seq<Input>)
    ensures NumInputs(inputs) >= 1
    ensures forall i | 0 <= i < |inputs| :: OffsetOf(inputs[i]) < NumInputs(inputs)
    ensures NumInputs(inputs) == 1 || exists i | 0 <= i < |inputs| :: OffsetOf(inputs[i]) == NumInputs(inputs) - 1
  {
    if |inputs| > 0 {
      var n := |inputs| - 1;
      NumInputsIsMaxPlusOne(inputs[..n]);
      assert forall i | 0 <= i < n :: inputs[..n][i] == inputs[i];
      if MaxOffset(inputs) != OffsetOf(inputs[n]) && MaxOffset(inputs) != 0 {
        var i :| 0 <= i < n && OffsetOf(inputs[..n][i]) == MaxOffset(inputs[..n]);
        assert OffsetOf(inputs[i]) == NumInputs(inputs) - 1;
      }
    }
  }

  /** The offsets in order of first appearance: an independent description of the table's key
      order. */
  function FirstSeen(s: seq<int>): seq<int>
  {
    if |s| == 0 then []
    else
      var n := |s| - 1;
      var d := FirstSeen(s[..n]);
      if s[n] in d then d else d + [s[n]]
  }

  /** The value of the last input with offset k, searching back from the end. */
  function LastEntry(inputs: seq<Input>, k: int): Option<Entry>
  {
    if |inputs| == 0 then None
    else
      var n := |inputs| - 1;
      if OffsetOf(inputs[n]) == k then Some(EntryOf(inputs[n])) else LastEntry(inputs[..n], k)
  }

  /** The table's keys are the distinct offsets in order of first appearance: inputs sharing an
      offset do not add a key. */
  lemma {:induction false} TableKeysFirstSeen(inputs: seq<Input>)
    ensures Keys(TableOf(inputs)) == FirstSeen(Offsets(inputs))
  {
    if |inputs| > 0 {
      var n := |inputs| - 1;
      TableKeysFirstSeen(inputs[..n]);
      assert Offsets(inputs)[..n] == Offsets(inputs[..n]);
    }
  }

  /** Inputs sharing an offset overwrite one another: each slot holds the entry of the LAST input
      with its offset, and an offset has a slot exactly when some input carries it. */
  lemma {:induction false} TableLastWins(inputs: seq<Input>)
    ensures forall j | 0 <= j < |TableOf(inputs)| :: LastEntry(inputs, TableOf(inputs)[j].offset) == Some(TableOf(inputs)[j].entry)
    ensures forall k :: k in Keys(TableOf(inputs)) <==> LastEntry(inputs, k).Some?
  {
    if |inputs| > 0 {
      var n := |inputs| - 1;
      var t0 := TableOf(inputs[..n]);
      var t := TableOf(inputs);
      TableLastWins(inputs[..n]);
      forall j | 0 <= j < |t| ensures LastEntry(inputs, t[j].offset) == Some(t[j].entry) {
        if t[j].offset != OffsetOf(inputs[n]) {
          assert Keys(t)[j] == t[j].offset;
          assert j < |t0|;
          assert t[j] == t0[j];
        }
      }
    }
  }

  /** The slot's semantic is `name`. */
  predicate HasSemantic(s: Slot, name: string)
  {
    s.entry.semantic == Some(name)
  }

  /** The slot the VERTEX loop stops at: the first VERTEX slot in key order. */
  function FirstVertex(t: seq<Slot>): (r: Option<nat>)
    ensures r.None? <==> forall j | 0 <= j < |t| :: !HasSemantic(t[j], "VERTEX")
    ensures r.Some? ==> r.value < |t| && HasSemantic(t[r.value], "VERTEX")
    ensures r.Some? ==> forall j | 0 <= j < r.value :: !HasSemantic(t[j], "VERTEX")
  {
    if |t| == 0 then None
    else if HasSemantic(t[0], "VERTEX") then Some(0)
    else match FirstVertex(t[1..])
      case None => None
      case Some(j) => Some(j + 1)
  }

  /** `(vertex_offset, pos_source_id)` after the VERTEX loop: the first VERTEX slot's offset and
      the position source its pool aliases (None when the pool is not in the alias map). */
  function ResolveVertex(t: seq<Slot>, poolAlias: map<Option<string>, string>): (Option<int>, Option<string>)
  {
    match FirstVertex(t)
    case None => (None, None)
    case Some(j) =>
      var pool := Some(t[j].entry.source);
      (Some(t[j].offset), if pool in poolAlias then Some(poolAlias[pool]) else None)
  }

  /** The VERTEX loop, which breaks at the first VERTEX slot. */
  method FindVertexInput(t: seq<Slot>, poolAlias: map<Option<string>, string>)
    returns (vertexOffset: Option<int>, posSourceId: Option<string>)
    ensures (vertexOffset, posSourceId) == ResolveVertex(t, poolAlias)
  {
    vertexOffset, posSourceId := None, None;
    var j := 0;
    while j < |t|
      invariant 0 <= j <= |t|
      invariant forall j' | 0 <= j' < j :: !HasSemantic(t[j'], "VERTEX")
      invariant vertexOffset == None && posSourceId == None
    {
      if HasSemantic(t[j], "VERTEX") {
        vertexOffset := Some(t[j].offset);
        var pool := Some(t[j].entry.source);
        posSourceId := if pool in poolAlias then Some(poolAlias[pool]) else None;
        assert FirstVertex(t) == Some(j);
        return;
      }
      j := j + 1;
    }
  }

  /** The decoded sources of a mesh, keyed by their `id` attribute. */
  type SourceTable = map<Option<string>, seq<Tuple>>

  /** `sources.get(src)` */
  function Lookup(sources: SourceTable, id: string): Option<seq<Tuple>>
  {
    if Some(id) in sources then Some(sources[Some(id)]) else None
  }

  /** An optional channel's `(xxx_offset, xxx_source)` pair; both start as None. */
  datatype Pick = Pick(offset: Option<int>, source: Option<seq<Tuple>>)

  datatype Channels = Channels(normal: Pick, color: Pick, uv: Pick)

  function Unpicked(): Pick
  {
    Pick(None, None)
  }

  function PickOf(s: Slot, sources: SourceTable): Pick
  {
    Pick(Some(s.offset), Lookup(sources, s.entry.source))
  }

  /** One iteration of the channel loop. */
  function ChannelStep(c: Channels, s: Slot, sources: SourceTable): Channels
  {
    if HasSemantic(s, "NORMAL") then c.(normal := PickOf(s, sources))
    else if HasSemantic(s, "COLOR") then c.(color := PickOf(s, sources))
    else if HasSemantic(s, "TEXCOORD") then
      if c.uv.source.None? || s.entry.setIndex == Some("0") then c.(uv := PickOf(s, sources)) else c
    else c
  }

  /** The channels after the loop over the table's slots. */
  function SelectChannels(t: seq<Slot>, sources: SourceTable): Channels
  {
    if |t| == 0 then Channels(Unpicked(), Unpicked(), Unpicked())
    else ChannelStep(SelectChannels(t[..|t| - 1], sources), t[|t| - 1], sources)
  }

  /** The channel loop over `input_by_offset.items()`. */
  method SelectOptionalChannels(t: seq<Slot>, sources: SourceTable) returns (c: Channels)
    ensures c == SelectChannels(t, sources)
  {
    var normalOffset, uvOffset, colorOffset: Option<int> := None, None, None;
    var normalSource, uvSource, colorSource: Option<seq<Tuple>> := None, None, None;
    var j := 0;
    while j < |t|
      invariant 0 <= j <= |t|
      invariant Channels(Pick(normalOffset, normalSource), Pick(colorOffset, colorSource), Pick(uvOffset, uvSource))
                == SelectChannels(t[..j], sources)
    {
      var s := t[j];
      if HasSemantic(s, "NORMAL") {
        normalOffset := Some(s.offset);
        normalSource := Lookup(sources, s.entry.source);
      } else if HasSemantic(s, "COLOR") {
        colorOffset := Some(s.offset);
        colorSource := Lookup(sources, s.entry.source);
      } else if HasSemantic(s, "TEXCOORD") {
        if uvSource.None? || s.entry.setIndex == Some("0") {
          uvOffset := Some(s.offset);
          uvSource := Lookup(sources, s.entry.source);
        }
      }
      assert t[..j + 1][..j] == t[..j];
      j := j + 1;
    }
    assert t[..|t|] == t;
    c := Channels(Pick(normalOffset, normalSource), Pick(colorOffset, colorSource), Pick(uvOffset, uvSource));
  }

  /** The NORMAL or COLOR pick of a channel set. */
  function Selected(c: Channels, name: string): Pick
  {
    if name == "NORMAL" then c.normal else c.color
  }

  /** The index of the last slot with semantic `name`, if any. */
  function LastWith(t: seq<Slot>, name: string): (r: Option<nat>)
    ensures r.None? <==> forall j | 0 <= j < |t| :: !HasSemantic(t[j], name)
    ensures r.Some? ==> r.value < |t| && HasSemantic(t[r.value], name)
    ensures r.Some? ==> forall j | r.value < j < |t| :: !HasSemantic(t[j], name)
  {
    if |t| == 0 then None
    else if HasSemantic(t[|t| - 1], name) then Some(|t| - 1)
    else
      var r := LastWith(t[..|t| - 1], name);
      assert forall j | 0 <= j < |t| - 1 :: t[..|t| - 1][j] == t[j];
      r
  }

  /** A picked source is one of the table's decoded sources. */
  lemma {:induction false} PickedSourcesInTable(t: seq<Slot>, sources: SourceTable)
    ensures var c := SelectChannels(t, sources);
            && (c.normal.source.Some? ==> c.normal.source.value in sources.Values)
            && (c.color.source.Some? ==> c.color.source.value in sources.Values)
            && (c.uv.source.Some? ==> c.uv.source.value in sources.Values)
  {
    if |t| > 0 {
      PickedSourcesInTable(t[..|t| - 1], sources);
    }
  }

  /** NORMAL and COLOR take the LAST matching slot in table order, and stay unset when no slot
      has the semantic. */
  lemma {:induction false} LastNormalOrColorWins(t: seq<Slot>, sources: SourceTable, name: string)
    requires name == "NORMAL" || name == "COLOR"
    ensures Selected(SelectChannels(t, sources), name) ==
              match LastWith(t, name)
              case None => Unpicked()
              case Some(j) => PickOf(t[j], sources)
  {
    if |t| > 0 {
      var n := |t| - 1;
      LastNormalOrColorWins(t[..n], sources, name);
      if !HasSemantic(t[n], name) {
        assert LastWith(t, name) == LastWith(t[..n], name);
        assert forall j | 0 <= j < n :: t[..n][j] == t[j];
      }
    }
  }

  /** Without any TEXCOORD slot the UV channel stays unset. */
  lemma {:induction false} NoTexcoordNoUv(t: seq<Slot>, sources: SourceTable)
    requires forall j | 0 <= j < |t| :: !HasSemantic(t[j], "TEXCOORD")
    ensures SelectChannels(t, sources).uv == Unpicked()
  {
    if |t| > 0 {
      NoTexcoordNoUv(t[..|t| - 1], sources);
    }
  }

  /** A TEXCOORD slot with set "0" whose source exists wins over every TEXCOORD slot after it
      that does not also have set "0". */
  lemma {:induction false} TexcoordSetZeroWins(t: seq<Slot>, sources: SourceTable, j: nat)
    requires j < |t| && HasSemantic(t[j], "TEXCOORD") && t[j].entry.setIndex == Some("0")
    requires Lookup(sources, t[j].entry.source).Some?
    requires forall j' | j < j' < |t| :: !(HasSemantic(t[j'], "TEXCOORD") && t[j'].entry.setIndex == Some("0"))
    ensures SelectChannels(t, sources).uv == PickOf(t[j], sources)
  {
    var n := |t| - 1;
    if n > j {
      assert forall j' | 0 <= j' < n :: t[..n][j'] == t[j'];
      TexcoordSetZeroWins(t[..n], sources, j);
    } else {
      assert t[..n][..|t[..n]|] == t[..n];
    }
  }

  /** Without any set "0" TEXCOORD slot, the UV channel is the first TEXCOORD slot whose source
      exists: an earlier TEXCOORD slot whose source is missing leaves `uv_source` None and is
      overridden. */
  lemma {:induction false} TexcoordFirstFoundWins(t: seq<Slot>, sources: SourceTable, j: nat)
    requires j < |t| && HasSemantic(t[j], "TEXCOORD") && Lookup(sources, t[j].entry.source).Some?
    requires forall j' | 0 <= j' < j && HasSemantic(t[j'], "TEXCOORD") :: Lookup(sources, t[j'].entry.source).None?
    requires forall j' | 0 <= j' < |t| && HasSemantic(t[j'], "TEXCOORD") :: t[j'].entry.setIndex != Some("0")
    ensures SelectChannels(t, sources).uv == PickOf(t[j], sources)
  {
    var n := |t| - 1;
    assert forall j' | 0 <= j' < n :: t[..n][j'] == t[j'];
    if n > j {
      TexcoordFirstFoundWins(t[..n], sources, j);
    } else {
      UvUnfoundBefore(t[..n], sources);
    }
  }

  /** Before the first TEXCOORD slot with an existing source, `uv_source` is still None. */
  lemma {:induction false} UvUnfoundBefore(t: seq<Slot>, sources: SourceTable)
    requires forall j | 0 <= j < |t| && HasSemantic(t[j], "TEXCOORD") :: Lookup(sources, t[j].entry.source).None?
    ensures SelectChannels(t, sources).uv.source.None?
  {
    if |t| > 0 {
      var n := |t| - 1;
      assert forall j' | 0 <= j' < n :: t[..n][j'] == t[j'];
      UvUnfoundBefore(t[..n], sources);
    }
  }

  /** The loop that fills `input_by_offset` and `max_offset`. */
  method BuildInputTable(inputs: seq<Input>) returns (t: seq<Slot>, numInputs: int)
    ensures t == TableOf(inputs) && numInputs == NumInputs(inputs)
  {
    t := [];
    var maxOffset := 0;
    var i := 0;
    while i < |inputs|
      invariant 0 <= i <= |inputs|
      invariant t == TableOf(inputs[..i]) && maxOffset == MaxOffset(inputs[..i])
    {
      var inp := inputs[i];
      var off := OffsetOf(inp);
      t := Put(t, off, EntryOf(inp));
      maxOffset := if off > maxOffset then off else maxOffset;
      assert inputs[..i + 1][..i] == inputs[..i];
      i := i + 1;
    }
    assert inputs[..|inputs|] == inputs;
    numInputs := maxOffset + 1;
  }
}
