/** The import operator's `execute`: find every `<geometry>` of the parsed document under its
    namespace, decode each, count the meshes built, and report. */
module Importer {
  import opened Elements
  import opened Namespace
  import opened GeometryDecoder

  /** Why the operator returns CANCELLED. */
  datatype CancelReason = ParseFailed | NoGeometry | NothingImported

  /** `execute`'s outcome: FINISHED with the number of objects imported, CANCELLED, or an
      exception that escapes the operator. */
  datatype Report = Finished(imported: nat) | Cancelled(why: CancelReason) | Crashed(err: PyError)

  /** The elements among `nodes` whose tag is `tag`, in order, read as geometries. */
  function WithTag(nodes: seq<Node>, tag: string): (gs: seq<Geometry>)
    ensures |gs| <= |nodes|
    ensures forall g | g in gs :: exists i | 0 <= i < |nodes| :: nodes[i].tag == tag && nodes[i].geometry == g
    ensures |gs| == 0 <==> forall i | 0 <= i < |nodes| :: nodes[i].tag != tag
  {
    if |nodes| == 0 then []
    else
      var init, last := nodes[..|nodes| - 1], nodes[|nodes| - 1];
      assert forall i | 0 <= i < |init| :: init[i] == nodes[i];
      WithTag(init, tag) + (if last.tag == tag then [last.geometry] else [])
  }

  /** The positions of the nodes carrying `tag`. */
  function TagPositions(nodes: seq<Node>, tag: string): seq<nat>
  {
    if |nodes| == 0 then []
    else TagPositions(nodes[..|nodes| - 1], tag) + (if nodes[|nodes| - 1].tag == tag then [|nodes| - 1] else [])
  }

  /** TagPositions lists, in increasing order, exactly the positions of the nodes carrying
      `tag`. */
  lemma {:induction false} TagPositionsExactly(nodes: seq<Node>, tag: string)
    ensures var ix := TagPositions(nodes, tag);
            && (forall j | 0 <= j < |ix| :: ix[j] < |nodes|)
            && (forall j, k | 0 <= j < k < |ix| :: ix[j] < ix[k])
            && (forall i: nat :: i in ix <==> i < |nodes| && nodes[i].tag == tag)
  {
    if |nodes| > 0 {
      var init := nodes[..|nodes| - 1];
      TagPositionsExactly(init, tag);
      assert forall i | 0 <= i < |init| :: init[i] == nodes[i];
    }
  }

  /** The search is an in-order filter: the geometries found are those of the nodes at
      TagPositions, one for one and in the same order. */
  lemma {:induction false} WithTagIsFilter(nodes: seq<Node>, tag: string)
    ensures var ix, gs := TagPositions(nodes, tag), WithTag(nodes, tag);
            && |gs| == |ix|
            && forall j | 0 <= j < |ix| :: ix[j] < |nodes| && gs[j] == nodes[ix[j]].geometry
  {
    if |nodes| > 0 {
      var init := nodes[..|nodes| - 1];
      WithTagIsFilter(init, tag);
      TagPositionsExactly(init, tag);
      var ix0, gs0 := TagPositions(init, tag), WithTag(init, tag);
      assert forall j | 0 <= j < |ix0| :: init[ix0[j]] == nodes[ix0[j]];
    }
  }

  /** `root.findall(".//" + q(ns, "geometry"))`: the descendants whose tag is `geometry` qualified
      with the root's namespace, in document order. */
  function FindGeometries(doc: Document): seq<Geometry>
  {
    WithTag(doc.descendants, Qualify(GetColladaNs(doc.rootTag), "geometry"))
  }

  /** Under a root tag `{uri}local` the importer looks for `{uri}geometry`; under a root tag
      without a namespace it looks for plain `geometry`. */
  lemma GeometryTag(rootTag: string, uri: string, local: string)
    ensures '}' !in uri && rootTag == "{" + uri + "}" + local ==>
              Qualify(GetColladaNs(rootTag), "geometry") == "{" + uri + "}geometry"
    ensures !(|rootTag| > 0 && rootTag[0] == '{') ==> Qualify(GetColladaNs(rootTag), "geometry") == "geometry"
  {
    if '}' !in uri && rootTag == "{" + uri + "}" + local {
      var n := |uri| + 2;
      forall j | 0 <= j < n - 1 ensures rootTag[j] != '}' {
        if j > 0 {
          assert rootTag[j] == uri[j - 1];
        }
      }
      BeforeFirstBrace(rootTag, n);
      assert rootTag[..n - 1] == "{" + uri;
    }
  }

  /** What `build_mesh_from_geometry` does with each geometry, in order. */
  function Outcomes(gs: seq<Geometry>): (os: seq<GeomOutcome>)
    ensures |os| == |gs| && forall i | 0 <= i < |gs| :: os[i] == DecodeGeometry(gs[i])
  {
    seq(|gs|, i requires 0 <= i < |gs| => DecodeGeometry(gs[i]))
  }

  /** `imported` after the loop over the first outcomes; an exception ends the loop. */
  function ImportCount(os: seq<GeomOutcome>): Result<nat>
  {
    if |os| == 0 then Ok(0) else CountNext(ImportCount(os[..|os| - 1]), os[|os| - 1])
  }

  /** One more geometry: an exception escapes, a mesh counts one, a skipped geometry nothing. */
  function CountNext(prev: Result<nat>, o: GeomOutcome): Result<nat>
  {
    if prev.Raise? then prev
    else match o
      case Raised(e) => Raise(e)
      case Built(_) => Ok(prev.value + 1)
      case Skipped(_) => prev
  }

  /** The count after geometry i is one more step after the count before it. */
  lemma CountSnoc(os: seq<GeomOutcome>, i: nat)
    requires i < |os|
    ensures ImportCount(os[..i + 1]) == CountNext(ImportCount(os[..i]), os[i])
  {
    assert os[..i + 1][..i] == os[..i];
  }

  /** The positions of the outcomes that are meshes. */
  function BuiltAt(os: seq<GeomOutcome>): set<nat>
  {
    set i: nat | i < |os| && os[i].Built?
  }

  /** The count raises exactly when some geometry raises. */
  lemma {:induction false} ImportCountRaises(os: seq<GeomOutcome>)
    ensures ImportCount(os).Raise? <==> exists i | 0 <= i < |os| :: os[i].Raised?
  {
    if |os| > 0 {
      var init := os[..|os| - 1];
      ImportCountRaises(init);
      if ImportCount(init).Raise? {
        var i :| 0 <= i < |init| && init[i].Raised?;
        assert os[i] == init[i];
      } else if !os[|os| - 1].Raised? {
        forall i | 0 <= i < |os| ensures !os[i].Raised? {
          if i < |init| {
            assert os[i] == init[i];
          }
        }
      }
    }
  }

  /** Without an exception the count is the number of geometries that became a mesh. */
  lemma {:induction false} ImportCountIsBuiltCount(os: seq<GeomOutcome>)
    requires ImportCount(os).Ok?
    ensures ImportCount(os).value == |BuiltAt(os)| <= |os|
  {
    if |os| > 0 {
      var init := os[..|os| - 1];
      var n := |os| - 1;
      assert ImportCount(init).Ok?;
      ImportCountIsBuiltCount(init);
      if os[n].Built? {
        assert BuiltAt(os) == BuiltAt(init) + {n};
      } else {
        assert BuiltAt(os) == BuiltAt(init);
      }
    }
  }

  /** The report for the decoded geometries of a parsed document. */
  function ReportOf(os: seq<GeomOutcome>): Report
  {
    if |os| == 0 then Cancelled(NoGeometry)
    else match ImportCount(os)
      case Raise(e) => Crashed(e)
      case Ok(n) => if n == 0 then Cancelled(NothingImported) else Finished(n)
  }

  /** `execute` from the parsed document on (None when `ET.parse` failed). */
  function Execute(doc: Option<Document>): Report
  {
    if doc.None? then Cancelled(ParseFailed)
    else ReportOf(Outcomes(FindGeometries(doc.value)))
  }

  /** The operator is cancelled for "No geometry found" exactly when no descendant of the root
      carries the namespaced `geometry` tag. */
  lemma ExecuteNoGeometry(doc: Document)
    ensures Execute(Some(doc)) == Cancelled(NoGeometry)
            <==> forall i | 0 <= i < |doc.descendants| ::
                   doc.descendants[i].tag != Qualify(GetColladaNs(doc.rootTag), "geometry")
  {
    ReportOutcomes(Outcomes(FindGeometries(doc)));
  }

  /** The operator finishes exactly when at least one geometry becomes a mesh and none raises,
      and then reports how many became meshes; an exception escapes exactly when some geometry
      raises; it is cancelled for nothing imported exactly when there are geometries, none
      raises and none becomes a mesh. */
  lemma ReportOutcomes(os: seq<GeomOutcome>)
    ensures ReportOf(os).Finished? <==> (forall i | 0 <= i < |os| :: !os[i].Raised?) && BuiltAt(os) != {}
    ensures ReportOf(os).Finished? ==> 1 <= ReportOf(os).imported <= |os| && ReportOf(os).imported == |BuiltAt(os)|
    ensures ReportOf(os).Crashed? <==> exists i | 0 <= i < |os| :: os[i].Raised?
    ensures ReportOf(os) == Cancelled(NothingImported) <==>
              |os| > 0 && (forall i | 0 <= i < |os| :: !os[i].Raised?) && BuiltAt(os) == {}
    ensures ReportOf(os) == Cancelled(NoGeometry) <==> |os| == 0
  {
    ImportCountRaises(os);
    if ImportCount(os).Ok? {
      ImportCountIsBuiltCount(os);
    }
  }

  /** `execute`: parse failure, no geometry, or the count of imported meshes. */
  method ExecuteImport(doc: Option<Document>) returns (r: Report)
    ensures r == Execute(doc)
  {
    if doc.None? {
      return Cancelled(ParseFailed);
    }
    var geometries := FindGeometries(doc.value);
    if |geometries| == 0 {
      return Cancelled(NoGeometry);
    }
    var count := CountImported(geometries);
    if count.Raise? {
      return Crashed(count.error);
    }
    if count.value == 0 {
      return Cancelled(NothingImported);
    }
    return Finished(count.value);
  }

  /** The loop of `execute` that builds each geometry and counts the objects imported; an
      exception from a geometry escapes. */
  method CountImported(geometries: seq<Geometry>) returns (r: Result<nat>)
    ensures r == ImportCount(Outcomes(geometries))
  {
    var imported := 0;
    var i := 0;
    while i < |geometries|
      invariant 0 <= i <= |geometries|
      invariant ImportCount(Outcomes(geometries)[..i]) == Ok(imported)
    {
      ghost var os := Outcomes(geometries);
      CountSnoc(os, i);
      var obj := BuildMeshFromGeometry(geometries[i]);
      assert obj == os[i];
      if obj.Raised? {
        ImportRaiseIsFinal(os, i + 1);
        return Raise(obj.err);
      }
      if obj.Built? {
        imported := imported + 1;
      }
      i := i + 1;
    }
    assert Outcomes(geometries)[..|geometries|] == Outcomes(geometries);
    return Ok(imported);
  }

  /** An exception from one geometry ends the loop. */
  lemma {:induction false} ImportRaiseIsFinal(gs: seq<GeomOutcome>, k: nat)
    requires k <= |gs| && ImportCount(gs[..k]).Raise?
    ensures ImportCount(gs) == ImportCount(gs[..k])
    decreases |gs| - k
  {
    if k < |gs| {
      assert gs[..k + 1][..k] == gs[..k];
      ImportRaiseIsFinal(gs, k + 1);
    } else {
      assert gs[..k] == gs;
    }
  }
}
