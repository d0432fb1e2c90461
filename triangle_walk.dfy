/** The triangle walk of `build_mesh_from_geometry`: for each of a block's `count` triangles and
    each of its three corners, the reads from the packed index stream `raw_idx`, the per-corner
    normal, colour and UV values with their fallbacks, the degenerate-triangle drop, and the
    growth of `faces`, `corner_norms`, `corner_cols` and `corner_uvs`.

    The reads `raw_idx[...]` and `uv[1]` are unchecked in the importer: an index past the end of
    the stream raises IndexError, and a negative one counts from the end as Python lists do. */
module TriangleWalk {
  import opened Elements

  datatype Uv = Uv(u: real, v: real)
  datatype Rgba = Rgba(r: real, g: real, b: real, a: real)

  /** An active optional channel: its offset is set and its source is present and non-empty
      (`xxx_offset is not None and xxx_source`). */
  datatype Channel = Channel(offset: int, source: seq<Tuple>)

  /** What the corner loop of one block reads with. */
  datatype Layout = Layout(numInputs: int, vertexOffset: int,
                           normal: Option<Channel>, color: Option<Channel>, uv: Option<Channel>)

  /** `raw_idx[k]` on a Python list. */
  function PyIndex(p: seq<int>, k: int): (r: Result<int>)
    ensures r.Raise? <==> !(-|p| <= k < |p|)
    ensures r.Raise? ==> r.error == IndexError
    ensures 0 <= k < |p| ==> r == Ok(p[k])
    ensures -|p| <= k < 0 ==> r == Ok(p[|p| + k])
  {
    if 0 <= k < |p| then Ok(p[k])
    else if -|p| <= k < 0 then Ok(p[|p| + k])
    else Raise(IndexError)
  }

  /** The normal of a corner, `Vector(normal_source[ni])`: the source row, or (0, 0, 1) for an
      out-of-range index; a vector needs at least two components, so a row narrower than 2
      raises ValueError. */
  function NormalAt(source: seq<Tuple>, i: int): Result<Tuple>
  {
    if 0 <= i < |source| then
      if |source[i]| >= 2 then Ok(source[i]) else Raise(ValueError)
    else Ok([0.0, 0.0, 1.0])
  }

  /** Some row of a source is too narrow to be a vector or a UV pair. */
  predicate HasNarrowRow(source: seq<Tuple>)
  {
    exists k | 0 <= k < |source| :: |source[k]| < 2
  }

  function White(): Rgba
  {
    Rgba(1.0, 1.0, 1.0, 1.0)
  }

  /** A colour row as RGBA: kept when 4 wide, given alpha 1 when 3 wide, white otherwise. */
  function ColorOf(c: Tuple): Rgba
  {
    if |c| == 4 then Rgba(c[0], c[1], c[2], c[3])
    else if |c| == 3 then Rgba(c[0], c[1], c[2], 1.0)
    else White()
  }

  /** The colour of a corner: the converted source row, or white for an out-of-range index. */
  function ColorAt(source: seq<Tuple>, i: int): Rgba
  {
    if 0 <= i < |source| then ColorOf(source[i]) else White()
  }

  /** The UV of a corner: the first two components of the source row, (0, 0) for an
      out-of-range index; a row narrower than 2 raises IndexError at `uv[1]`. */
  function UvAt(source: seq<Tuple>, i: int): Result<Uv>
  {
    if 0 <= i < |source| then
      if |source[i]| >= 2 then Ok(Uv(source[i][0], source[i][1])) else Raise(IndexError)
    else Ok(Uv(0.0, 0.0))
  }

  /** What the corners of one triangle add: `tri_vertices`, `tri_norm`, `tri_col`, `tri_uv`. */
  datatype Parts = Parts(vertices: seq<int>, norms: seq<Tuple>, cols: seq<Rgba>, uvs: seq<Uv>)

  function NoParts(): Parts
  {
    Parts([], [], [], [])
  }

  function Join(a: Parts, b: Parts): Parts
  {
    Parts(a.vertices + b.vertices, a.norms + b.norms, a.cols + b.cols, a.uvs + b.uvs)
  }

  /** The NORMAL read of a corner: nothing when the channel is inactive. */
  function ReadNormal(p: seq<int>, b: int, ch: Option<Channel>): Result<seq<Tuple>>
  {
    if ch.None? then Ok([])
    else
      var ni := PyIndex(p, b + ch.value.offset);
      if ni.Raise? then Raise(ni.error)
      else
        var n := NormalAt(ch.value.source, ni.value);
        if n.Raise? then Raise(n.error) else Ok([n.value])
  }

  /** The COLOR read of a corner: nothing when the channel is inactive. */
  function ReadColor(p: seq<int>, b: int, ch: Option<Channel>): Result<seq<Rgba>>
  {
    if ch.None? then Ok([])
    else
      var ci := PyIndex(p, b + ch.value.offset);
      if ci.Raise? then Raise(ci.error) else Ok([ColorAt(ch.value.source, ci.value)])
  }

  /** The TEXCOORD read of a corner: nothing when the channel is inactive. */
  function ReadUv(p: seq<int>, b: int, ch: Option<Channel>): Result<seq<Uv>>
  {
    if ch.None? then Ok([])
    else
      var ti := PyIndex(p, b + ch.value.offset);
      if ti.Raise? then Raise(ti.error)
      else
        var uv := UvAt(ch.value.source, ti.value);
        if uv.Raise? then Raise(uv.error) else Ok([uv.value])
  }

  /** The reads of one corner whose slot starts at `b`, in the importer's order: VERTEX, then
      NORMAL, COLOR and TEXCOORD when their channel is active. */
  function ReadCorner(p: seq<int>, b: int, w: Layout): Result<Parts>
  {
    var vi := PyIndex(p, b + w.vertexOffset);
    if vi.Raise? then Raise(vi.error) else
    var ns := ReadNormal(p, b, w.normal);
    if ns.Raise? then Raise(ns.error) else
    var cs := ReadColor(p, b, w.color);
    if cs.Raise? then Raise(cs.error) else
    var us := ReadUv(p, b, w.uv);
    if us.Raise? then Raise(us.error) else
    Ok(Parts([vi.value], ns.value, cs.value, us.value))
  }

  /** The first n corners of the triangle whose slots start at `base`. */
  function ReadCorners(p: seq<int>, base: int, w: Layout, n: nat): Result<Parts>
  {
    if n == 0 then Ok(NoParts())
    else CornerNext(ReadCorners(p, base, w, n - 1), ReadCorner(p, base + (n - 1) * w.numInputs, w))
  }

  /** One more corner: the first exception wins, otherwise the corner's reads are appended. */
  function CornerNext(prev: Result<Parts>, c: Result<Parts>): Result<Parts>
  {
    if prev.Raise? then prev else if c.Raise? then c else Ok(Join(prev.value, c.value))
  }

  /** Corner v is read at slot `base + v * num_inputs`, after corners 0..v-1; with
      ReadCornerValues this places every value a triangle reads. */
  lemma CornersSnoc(p: seq<int>, base: int, w: Layout, v: nat, b: int)
    requires b == base + v * w.numInputs
    ensures ReadCorners(p, base, w, v + 1) == CornerNext(ReadCorners(p, base, w, v), ReadCorner(p, b, w))
  {
    var n := v + 1;
    assert base + (n - 1) * w.numInputs == b;
    assert ReadCorners(p, base, w, n) == CornerNext(ReadCorners(p, base, w, n - 1), ReadCorner(p, base + (n - 1) * w.numInputs, w));
  }

  /** Triangle i's three corners; its slots start at `i * 3 * num_inputs`. */
  function ReadTriangle(p: seq<int>, w: Layout, i: nat): Result<Parts>
  {
    ReadCorners(p, i * 3 * w.numInputs, w, 3)
  }

  /** `len(set(tri_vertices)) < 3` */
  predicate Degenerate(vertices: seq<int>)
  {
    |set k | k in vertices| < 3
  }

  /** For three corners, degenerate means the three position indices are not pairwise distinct. */
  lemma DegenerateIffRepeated(vertices: seq<int>)
    requires |vertices| == 3
    ensures Degenerate(vertices) <==>
              vertices[0] == vertices[1] || vertices[0] == vertices[2] || vertices[1] == vertices[2]
  {
    var a, b, c := vertices[0], vertices[1], vertices[2];
    assert (set k | k in vertices) == {a, b, c};
    if a == b {
      assert {a, b, c} == {a, c};
    } else if a == c {
      assert {a, b, c} == {a, b};
    } else if b == c {
      assert {a, b, c} == {a, b};
    } else {
      assert |{a, b, c}| == |{a, b}| + 1;
    }
  }

  /** The function-level accumulators `faces`, `corner_norms`, `corner_cols`, `corner_uvs`. */
  datatype Acc = Acc(faces: seq<seq<int>>, norms: seq<Tuple>, cols: seq<Rgba>, uvs: seq<Uv>)

  /** A kept triangle: one face, and its corner values appended to every channel. */
  function Keep(acc: Acc, t: Parts): Acc
  {
    Acc(acc.faces + [t.vertices], acc.norms + t.norms, acc.cols + t.cols, acc.uvs + t.uvs)
  }

  /** The accumulators after the first n triangles of a block. */
  function Walk(acc: Acc, p: seq<int>, w: Layout, n: nat): Result<Acc>
  {
    if n == 0 then Ok(acc) else WalkNext(Walk(acc, p, w, n - 1), ReadTriangle(p, w, n - 1))
  }

  /** One more triangle: an exception ends the walk, a degenerate triangle is dropped, any other
      is kept. */
  function WalkNext(a: Result<Acc>, t: Result<Parts>): Result<Acc>
  {
    if a.Raise? then a
    else if t.Raise? then Raise(t.error)
    else if Degenerate(t.value.vertices) then a
    else Ok(Keep(a.value, t.value))
  }

  /** `range(count)`: no triangles for a negative count. */
  function TriangleCount(count: int): nat
  {
    if count > 0 then count else 0
  }

  /** Each corner adds one position index and exactly one entry to each active channel and none
      to an inactive one. */
  lemma {:induction false} ReadCornersShape(p: seq<int>, base: int, w: Layout, n: nat)
    requires ReadCorners(p, base, w, n).Ok?
    ensures var t := ReadCorners(p, base, w, n).value;
            && |t.vertices| == n
            && |t.norms| == (if w.normal.Some? then n else 0)
            && |t.cols| == (if w.color.Some? then n else 0)
            && |t.uvs| == (if w.uv.Some? then n else 0)
  {
    if n > 0 {
      ReadCornersShape(p, base, w, n - 1);
    }
  }

  /** The values one corner reads: its position index is the raw stream value at
      `b + vertex_offset`, not renumbered; each active channel gets the value at its own offset
      through NormalAt, ColorAt or UvAt; an inactive channel gets nothing. */
  lemma ReadCornerValues(p: seq<int>, b: int, w: Layout)
    requires ReadCorner(p, b, w).Ok?
    ensures var c := ReadCorner(p, b, w).value;
            && PyIndex(p, b + w.vertexOffset).Ok?
            && c.vertices == [PyIndex(p, b + w.vertexOffset).value]
            && (w.normal.None? ==> c.norms == [])
            && (w.color.None? ==> c.cols == [])
            && (w.uv.None? ==> c.uvs == [])
            && (w.normal.Some? ==>
                  && PyIndex(p, b + w.normal.value.offset).Ok?
                  && NormalAt(w.normal.value.source, PyIndex(p, b + w.normal.value.offset).value).Ok?
                  && c.norms == [NormalAt(w.normal.value.source, PyIndex(p, b + w.normal.value.offset).value).value])
            && (w.color.Some? ==>
                  && PyIndex(p, b + w.color.value.offset).Ok?
                  && c.cols == [ColorAt(w.color.value.source, PyIndex(p, b + w.color.value.offset).value)])
            && (w.uv.Some? ==>
                  && PyIndex(p, b + w.uv.value.offset).Ok?
                  && UvAt(w.uv.value.source, PyIndex(p, b + w.uv.value.offset).value).Ok?
                  && c.uvs == [UvAt(w.uv.value.source, PyIndex(p, b + w.uv.value.offset).value).value])
  {
  }

  /** The fallback values of a corner: an out-of-range normal index gives (0, 0, 1), an
      out-of-range colour index white, an out-of-range UV index (0, 0); a colour row of width 3
      gets alpha 1 and one of a width other than 3 or 4 gives white; a normal row narrower than
      2 raises ValueError and a UV row narrower than 2 IndexError. */
  lemma CornerFallbacks(source: seq<Tuple>, i: int)
    ensures !(0 <= i < |source|) ==> NormalAt(source, i) == Ok([0.0, 0.0, 1.0])
    ensures !(0 <= i < |source|) ==> ColorAt(source, i) == Rgba(1.0, 1.0, 1.0, 1.0)
    ensures !(0 <= i < |source|) ==> UvAt(source, i) == Ok(Uv(0.0, 0.0))
    ensures 0 <= i < |source| && |source[i]| >= 2 ==> NormalAt(source, i) == Ok(source[i])
    ensures 0 <= i < |source| && |source[i]| < 2 ==> NormalAt(source, i) == Raise(ValueError)
    ensures 0 <= i < |source| && |source[i]| == 4 ==> ColorAt(source, i) == Rgba(source[i][0], source[i][1], source[i][2], source[i][3])
    ensures 0 <= i < |source| && |source[i]| == 3 ==> ColorAt(source, i) == Rgba(source[i][0], source[i][1], source[i][2], 1.0)
    ensures 0 <= i < |source| && |source[i]| != 3 && |source[i]| != 4 ==> ColorAt(source, i) == Rgba(1.0, 1.0, 1.0, 1.0)
    ensures 0 <= i < |source| && |source[i]| >= 2 ==> UvAt(source, i) == Ok(Uv(source[i][0], source[i][1]))
    ensures 0 <= i < |source| && |source[i]| < 2 ==> UvAt(source, i) == Raise(IndexError)
  {
  }

  /** An exception ends a triangle's corner reads: once the first n corners raise, so do the
      first m >= n. */
  lemma {:induction false} CornersRaiseIsFinal(p: seq<int>, base: int, w: Layout, n: nat, m: nat)
    requires n <= m && ReadCorners(p, base, w, n).Raise?
    ensures ReadCorners(p, base, w, m) == ReadCorners(p, base, w, n)
    decreases m
  {
    if n < m {
      CornersRaiseIsFinal(p, base, w, n, m - 1);
    }
  }

  /** One corner raises IndexError for an index past either end of the stream or a UV row
      with fewer than two numbers, and ValueError only for a normal row with fewer than two. */
  lemma CornerRaises(p: seq<int>, b: int, w: Layout)
    requires ReadCorner(p, b, w).Raise?
    ensures var e := ReadCorner(p, b, w).error;
            || e == IndexError
            || (e == ValueError && w.normal.Some? && HasNarrowRow(w.normal.value.source))
  {
    if ReadCorner(p, b, w).error == ValueError {
      var src := w.normal.value.source;
      var ni := PyIndex(p, b + w.normal.value.offset).value;
      assert |src[ni]| < 2;
    }
  }

  /** The exceptions a triangle's reads raise: IndexError, or ValueError from a normal row with
      fewer than two numbers. */
  lemma {:induction false} CornersRaise(p: seq<int>, base: int, w: Layout, n: nat)
    requires ReadCorners(p, base, w, n).Raise?
    ensures var e := ReadCorners(p, base, w, n).error;
            || e == IndexError
            || (e == ValueError && w.normal.Some? && HasNarrowRow(w.normal.value.source))
  {
    if ReadCorners(p, base, w, n - 1).Raise? {
      CornersRaise(p, base, w, n - 1);
    } else {
      CornerRaises(p, base + (n - 1) * w.numInputs, w);
    }
  }

  /** The exceptions the triangle walk raises: IndexError, or ValueError from a normal row with
      fewer than two numbers. */
  lemma {:induction false} WalkRaises(acc: Acc, p: seq<int>, w: Layout, n: nat)
    requires Walk(acc, p, w, n).Raise?
    ensures var e := Walk(acc, p, w, n).error;
            || e == IndexError
            || (e == ValueError && w.normal.Some? && HasNarrowRow(w.normal.value.source))
  {
    if Walk(acc, p, w, n - 1).Raise? {
      WalkRaises(acc, p, w, n - 1);
    } else {
      CornersRaise(p, (n - 1) * 3 * w.numInputs, w, 3);
    }
  }

  /** An exception ends the walk: once the first n triangles raise, so do the first m >= n. */
  lemma {:induction false} WalkRaiseIsFinal(acc: Acc, p: seq<int>, w: Layout, n: nat, m: nat)
    requires n <= m && Walk(acc, p, w, n).Raise?
    ensures Walk(acc, p, w, m) == Walk(acc, p, w, n)
    decreases m
  {
    if n < m {
      WalkRaiseIsFinal(acc, p, w, n, m - 1);
    }
  }

  /** Faces and corners stay aligned: the walk only appends, adds at most one face per
      triangle, and each active channel gains exactly three entries per added face while an
      inactive one gains none. */
  lemma {:induction false} WalkAlignment(acc: Acc, p: seq<int>, w: Layout, n: nat)
    requires Walk(acc, p, w, n).Ok?
    ensures var a := Walk(acc, p, w, n).value;
            var added := |a.faces| - |acc.faces|;
            && 0 <= added <= n
            && |a.norms| == |acc.norms| + (if w.normal.Some? then 3 * added else 0)
            && |a.cols| == |acc.cols| + (if w.color.Some? then 3 * added else 0)
            && |a.uvs| == |acc.uvs| + (if w.uv.Some? then 3 * added else 0)
            && a.faces[..|acc.faces|] == acc.faces
            && a.norms[..|acc.norms|] == acc.norms
            && a.cols[..|acc.cols|] == acc.cols
            && a.uvs[..|acc.uvs|] == acc.uvs
  {
    if n > 0 {
      WalkAlignment(acc, p, w, n - 1);
      var a0 := Walk(acc, p, w, n - 1).value;
      var t := ReadTriangle(p, w, n - 1);
      assert t.Ok?;
      ReadCornersShape(p, (n - 1) * 3 * w.numInputs, w, 3);
      if !Degenerate(t.value.vertices) {
        var a := Keep(a0, t.value);
        assert Walk(acc, p, w, n).value == a;
        assert a.faces[..|acc.faces|] == a0.faces[..|acc.faces|];
        assert a.norms[..|acc.norms|] == a0.norms[..|acc.norms|];
        assert a.cols[..|acc.cols|] == a0.cols[..|acc.cols|];
        assert a.uvs[..|acc.uvs|] == a0.uvs[..|acc.uvs|];
      } else {
        assert Walk(acc, p, w, n).value == a0;
      }
    }
  }

  /** Every face the walk adds is the three raw position indices of one of the triangles read,
      and they are pairwise distinct: degenerate triangles add no face. */
  lemma {:induction false} WalkFaces(acc: Acc, p: seq<int>, w: Layout, n: nat)
    requires Walk(acc, p, w, n).Ok?
    ensures var a := Walk(acc, p, w, n).value;
            forall k | |acc.faces| <= k < |a.faces| ::
              && |a.faces[k]| == 3 && !Degenerate(a.faces[k])
              && exists i | 0 <= i < n :: ReadTriangle(p, w, i).Ok? && ReadTriangle(p, w, i).value.vertices == a.faces[k]
  {
    if n > 0 {
      WalkFaces(acc, p, w, n - 1);
      WalkAlignment(acc, p, w, n - 1);
      var a0 := Walk(acc, p, w, n - 1).value;
      assert ReadTriangle(p, w, n - 1).Ok?;
      var t := ReadTriangle(p, w, n - 1).value;
      ReadCornersShape(p, (n - 1) * 3 * w.numInputs, w, 3);
      var a := Walk(acc, p, w, n).value;
      assert a == if Degenerate(t.vertices) then a0 else Keep(a0, t);
      forall k | |acc.faces| <= k < |a.faces|
        ensures |a.faces[k]| == 3 && !Degenerate(a.faces[k])
        ensures exists i | 0 <= i < n :: ReadTriangle(p, w, i).Ok? && ReadTriangle(p, w, i).value.vertices == a.faces[k]
      {
        if k < |a0.faces| {
          assert a.faces[k] == a0.faces[k];
        } else {
          assert a.faces[k] == t.vertices;
        }
      }
    }
  }

  /** A triangle the walk keeps: its corners read without raising and its three position
      indices are distinct. */
  predicate Keeps(t: Result<Parts>)
  {
    t.Ok? && !Degenerate(t.value.vertices)
  }

  /** The positions, in a sequence of triangle reads, of the triangles the walk keeps. */
  function KeptOf(ts: seq<Result<Parts>>): seq<nat>
  {
    if |ts| == 0 then []
    else KeptOf(ts[..|ts| - 1]) + (if Keeps(ts[|ts| - 1]) then [|ts| - 1] else [])
  }

  /** KeptOf lists, in increasing order, exactly the positions of the kept triangles. */
  lemma {:induction false} KeptOfExactly(ts: seq<Result<Parts>>)
    ensures var ks := KeptOf(ts);
            && (forall j | 0 <= j < |ks| :: ks[j] < |ts|)
            && (forall j, k | 0 <= j < k < |ks| :: ks[j] < ks[k])
            && (forall i: nat :: i in ks <==> i < |ts| && Keeps(ts[i]))
  {
    if |ts| > 0 {
      var init := ts[..|ts| - 1];
      KeptOfExactly(init);
      assert forall i | 0 <= i < |init| :: init[i] == ts[i];
    }
  }

  /** The reads of the first n triangles of a block. */
  function Reads(p: seq<int>, w: Layout, n: nat): seq<Result<Parts>>
  {
    seq(n, i requires 0 <= i < n => ReadTriangle(p, w, i))
  }

  /** The indices of the triangles among the first n that the walk keeps. */
  function Kept(p: seq<int>, w: Layout, n: nat): seq<nat>
  {
    KeptOf(Reads(p, w, n))
  }

  /** The kept triangles are listed in increasing order and are exactly those among the first n
      whose corners read without raising and whose three position indices are distinct. */
  lemma KeptExactly(p: seq<int>, w: Layout, n: nat)
    ensures var ks := Kept(p, w, n);
            && (forall j | 0 <= j < |ks| :: ks[j] < n)
            && (forall j, k | 0 <= j < k < |ks| :: ks[j] < ks[k])
            && (forall i: nat :: i in ks <==> i < n && Keeps(ReadTriangle(p, w, i)))
  {
    KeptOfExactly(Reads(p, w, n));
  }

  /** Triangle n - 1 is listed last exactly when it is kept. */
  lemma KeptSnoc(p: seq<int>, w: Layout, n: nat)
    requires n > 0
    ensures Kept(p, w, n) == Kept(p, w, n - 1) + (if Keeps(ReadTriangle(p, w, n - 1)) then [n - 1] else [])
  {
    var ts := Reads(p, w, n);
    assert ts[..n - 1] == Reads(p, w, n - 1);
    assert ts[n - 1] == ReadTriangle(p, w, n - 1);
  }

  /** What the kept triangles among the first n read, in order. */
  function KeptParts(p: seq<int>, w: Layout, n: nat): seq<Parts>
  {
    if n == 0 then []
    else
      var t := ReadTriangle(p, w, n - 1);
      KeptParts(p, w, n - 1) + (if Keeps(t) then [t.value] else [])
  }

  /** The position triples of a sequence of triangle reads. */
  function FacesOf(ts: seq<Parts>): (fs: seq<seq<int>>)
    ensures |fs| == |ts| && forall j | 0 <= j < |ts| :: fs[j] == ts[j].vertices
  {
    if |ts| == 0 then []
    else
      var init := ts[..|ts| - 1];
      assert forall j | 0 <= j < |init| :: init[j] == ts[j];
      FacesOf(init) + [ts[|ts| - 1].vertices]
  }

  /** A sequence of triangle reads, one after the other. */
  function JoinAll(ts: seq<Parts>): Parts
  {
    if |ts| == 0 then NoParts() else Join(JoinAll(ts[..|ts| - 1]), ts[|ts| - 1])
  }

  /** One more triangle: the walk raises if it raises, and otherwise keeps it exactly when
      Keeps says so. */
  lemma WalkStep(acc: Acc, p: seq<int>, w: Layout, n: nat)
    requires n > 0 && Walk(acc, p, w, n).Ok?
    ensures var t := ReadTriangle(p, w, n - 1);
            && Walk(acc, p, w, n - 1).Ok? && t.Ok?
            && Walk(acc, p, w, n).value
                 == if Keeps(t) then Keep(Walk(acc, p, w, n - 1).value, t.value) else Walk(acc, p, w, n - 1).value
  {
  }

  /** The walk is the kept triangles and nothing else: the faces appended are the position
      triples of the kept triangles in order, and each channel gains exactly the values those
      triangles read, in the same order. */
  lemma {:induction false} WalkIsKept(acc: Acc, p: seq<int>, w: Layout, n: nat)
    requires Walk(acc, p, w, n).Ok?
    ensures AppendsKept(acc, Walk(acc, p, w, n).value, KeptParts(p, w, n))
  {
    if n > 0 {
      WalkStep(acc, p, w, n);
      WalkIsKept(acc, p, w, n - 1);
      var t := ReadTriangle(p, w, n - 1);
      var a0, ts0 := Walk(acc, p, w, n - 1).value, KeptParts(p, w, n - 1);
      if Keeps(t) {
        KeepAppends(acc, a0, ts0, t.value);
        assert Walk(acc, p, w, n).value == Keep(a0, t.value);
        assert KeptParts(p, w, n) == ts0 + [t.value];
      } else {
        assert Walk(acc, p, w, n).value == a0;
        assert KeptParts(p, w, n) == ts0;
      }
    }
  }

  /** `a` is `acc` with the faces and corner values of the triangle reads `ts` appended. */
  predicate AppendsKept(acc: Acc, a: Acc, ts: seq<Parts>)
  {
    && a.faces == acc.faces + FacesOf(ts)
    && a.norms == acc.norms + JoinAll(ts).norms
    && a.cols == acc.cols + JoinAll(ts).cols
    && a.uvs == acc.uvs + JoinAll(ts).uvs
  }

  /** Keeping one more triangle appends its reads. */
  lemma KeepAppends(acc: Acc, a: Acc, ts: seq<Parts>, t: Parts)
    requires AppendsKept(acc, a, ts)
    ensures AppendsKept(acc, Keep(a, t), ts + [t])
  {
    assert (ts + [t])[..|ts|] == ts;
  }

  /** Every triangle before n read without raising once the walk over n triangles has. */
  lemma WalkReadsOk(acc: Acc, p: seq<int>, w: Layout, n: nat, i: nat)
    requires Walk(acc, p, w, n).Ok? && i < n
    ensures ReadTriangle(p, w, i).Ok?
  {
    if ReadTriangle(p, w, i).Raise? {
      assert Walk(acc, p, w, i + 1).Raise?;
      WalkRaiseIsFinal(acc, p, w, i + 1, n);
    }
  }

  /** KeptParts lists the reads of the triangles Kept lists, in the same order. */
  lemma {:induction false} KeptPartsAreKept(p: seq<int>, w: Layout, n: nat)
    ensures |KeptParts(p, w, n)| == |Kept(p, w, n)|
    ensures forall j | 0 <= j < |Kept(p, w, n)| ::
              && ReadTriangle(p, w, Kept(p, w, n)[j]).Ok?
              && KeptParts(p, w, n)[j] == ReadTriangle(p, w, Kept(p, w, n)[j]).value
  {
    if n > 0 {
      KeptPartsAreKept(p, w, n - 1);
      KeptSnoc(p, w, n);
    }
  }

  /** The j-th kept triangle's reads, which have three corners. */
  lemma KeptPartsAt(p: seq<int>, w: Layout, n: nat, j: nat)
    requires j < |Kept(p, w, n)|
    ensures var i := Kept(p, w, n)[j];
            && i < n && ReadTriangle(p, w, i).Ok?
            && |KeptParts(p, w, n)| == |Kept(p, w, n)|
            && KeptParts(p, w, n)[j] == ReadTriangle(p, w, i).value
            && Shaped(w, KeptParts(p, w, n)[j])
  {
    var i := Kept(p, w, n)[j];
    KeptExactly(p, w, n);
    KeptPartsAreKept(p, w, n);
    ReadCornersShape(p, i * 3 * w.numInputs, w, 3);
  }

  /** A triangle's reads: three corners, so three entries in each active channel and none in an
      inactive one. */
  predicate Shaped(w: Layout, t: Parts)
  {
    && |t.vertices| == 3
    && |t.norms| == (if w.normal.Some? then 3 else 0)
    && |t.cols| == (if w.color.Some? then 3 else 0)
    && |t.uvs| == (if w.uv.Some? then 3 else 0)
  }

  /** Joined triangle reads: entry `3 * j + v` of each active channel is corner v of the j-th
      triangle. */
  lemma {:induction false} JoinAllCorner(w: Layout, ts: seq<Parts>, j: nat, v: nat)
    requires forall k | 0 <= k < |ts| :: Shaped(w, ts[k])
    requires j < |ts| && v < 3
    ensures var g := JoinAll(ts);
            && Shaped(w, ts[j])
            && |g.vertices| == 3 * |ts| && g.vertices[3 * j + v] == ts[j].vertices[v]
            && (w.normal.Some? ==> |g.norms| == 3 * |ts| && g.norms[3 * j + v] == ts[j].norms[v])
            && (w.color.Some? ==> |g.cols| == 3 * |ts| && g.cols[3 * j + v] == ts[j].cols[v])
            && (w.uv.Some? ==> |g.uvs| == 3 * |ts| && g.uvs[3 * j + v] == ts[j].uvs[v])
  {
    var init := ts[..|ts| - 1];
    assert forall k | 0 <= k < |init| :: init[k] == ts[k];
    assert Shaped(w, ts[|ts| - 1]);
    if j < |init| {
      JoinAllCorner(w, init, j, v);
    } else if |init| > 0 {
      JoinAllCorner(w, init, 0, 0);
    }
  }

  /** Corner v of the first n corners is what the corner read at slot `b = base + v * num_inputs`
      contributes. */
  lemma {:induction false} CornerAt(p: seq<int>, base: int, w: Layout, n: nat, v: nat, b: int)
    requires ReadCorners(p, base, w, n).Ok? && v < n && b == base + v * w.numInputs
    ensures ReadCorner(p, b, w).Ok?
    ensures var t, c := ReadCorners(p, base, w, n).value, ReadCorner(p, b, w).value;
            && |t.vertices| == n && |c.vertices| == 1 && t.vertices[v] == c.vertices[0]
            && (w.normal.Some? ==> |t.norms| == n && |c.norms| == 1 && t.norms[v] == c.norms[0])
            && (w.color.Some? ==> |t.cols| == n && |c.cols| == 1 && t.cols[v] == c.cols[0])
            && (w.uv.Some? ==> |t.uvs| == n && |c.uvs| == 1 && t.uvs[v] == c.uvs[0])
  {
    var bl := base + (n - 1) * w.numInputs;
    CornersSnoc(p, base, w, n - 1, bl);
    var prev, c := ReadCorners(p, base, w, n - 1), ReadCorner(p, bl, w);
    NextOk(prev, c);
    ReadCornersShape(p, base, w, n - 1);
    CornerShape(p, bl, w);
    if v < n - 1 {
      CornerAt(p, base, w, n - 1, v, b);
      JoinAt(prev.value, c.value, v);
    } else {
      assert b == bl;
      JoinAt(prev.value, c.value, v);
    }
  }

  /** A corner appended without an exception: both reads succeeded and are joined. */
  lemma NextOk(prev: Result<Parts>, c: Result<Parts>)
    requires CornerNext(prev, c).Ok?
    ensures prev.Ok? && c.Ok? && CornerNext(prev, c).value == Join(prev.value, c.value)
  {
  }

  /** Entry v of a join of the parts of v earlier corners and one more corner (v == |a|) or of
      more than v earlier corners (v < |a|). */
  lemma JoinAt(a: Parts, c: Parts, v: nat)
    requires v <= |a.vertices| && |c.vertices| == 1
    ensures var t := Join(a, c);
            && |t.vertices| == |a.vertices| + 1
            && t.vertices[v] == (if v < |a.vertices| then a.vertices[v] else c.vertices[0])
            && (|a.norms| == |a.vertices| && |c.norms| == 1 ==>
                  |t.norms| == |t.vertices| && t.norms[v] == (if v < |a.norms| then a.norms[v] else c.norms[0]))
            && (|a.cols| == |a.vertices| && |c.cols| == 1 ==>
                  |t.cols| == |t.vertices| && t.cols[v] == (if v < |a.cols| then a.cols[v] else c.cols[0]))
            && (|a.uvs| == |a.vertices| && |c.uvs| == 1 ==>
                  |t.uvs| == |t.vertices| && t.uvs[v] == (if v < |a.uvs| then a.uvs[v] else c.uvs[0]))
  {
  }

  /** A corner that reads without raising gives one position index and one value per active
      channel. */
  lemma CornerShape(p: seq<int>, b: int, w: Layout)
    requires ReadCorner(p, b, w).Ok?
    ensures var c := ReadCorner(p, b, w).value;
            && |c.vertices| == 1
            && |c.norms| == (if w.normal.Some? then 1 else 0)
            && |c.cols| == (if w.color.Some? then 1 else 0)
            && |c.uvs| == (if w.uv.Some? then 1 else 0)
  {
  }

  /** Corner v of the j-th kept triangle, read at slot `b = Kept[j] * 3 * num_inputs + v *
      num_inputs`: the walk's face j holds the raw position index at `b + vertex_offset`, and
      entry `3 * j + v` of what an active channel gained is the value NormalAt, ColorAt or UvAt
      gives for the raw index at `b` plus the channel's offset. */
  lemma WalkCornerValues(acc: Acc, p: seq<int>, w: Layout, n: nat, j: nat, v: nat, b: int)
    requires Walk(acc, p, w, n).Ok? && j < |Kept(p, w, n)| && v < 3
    requires b == Kept(p, w, n)[j] * 3 * w.numInputs + v * w.numInputs
    ensures var a, ks := Walk(acc, p, w, n).value, Kept(p, w, n);
            && |a.faces| == |acc.faces| + |ks| && |a.faces[|acc.faces| + j]| == 3
            && (w.normal.Some? ==> |a.norms| == |acc.norms| + 3 * |ks|)
            && (w.color.Some? ==> |a.cols| == |acc.cols| + 3 * |ks|)
            && (w.uv.Some? ==> |a.uvs| == |acc.uvs| + 3 * |ks|)
            && PyIndex(p, b + w.vertexOffset).Ok?
            && a.faces[|acc.faces| + j][v] == PyIndex(p, b + w.vertexOffset).value
            && (w.normal.Some? ==>
                  && PyIndex(p, b + w.normal.value.offset).Ok?
                  && NormalAt(w.normal.value.source, PyIndex(p, b + w.normal.value.offset).value).Ok?
                  && a.norms[|acc.norms| + 3 * j + v]
                       == NormalAt(w.normal.value.source, PyIndex(p, b + w.normal.value.offset).value).value)
            && (w.color.Some? ==>
                  && PyIndex(p, b + w.color.value.offset).Ok?
                  && a.cols[|acc.cols| + 3 * j + v]
                       == ColorAt(w.color.value.source, PyIndex(p, b + w.color.value.offset).value))
            && (w.uv.Some? ==>
                  && PyIndex(p, b + w.uv.value.offset).Ok?
                  && UvAt(w.uv.value.source, PyIndex(p, b + w.uv.value.offset).value).Ok?
                  && a.uvs[|acc.uvs| + 3 * j + v]
                       == UvAt(w.uv.value.source, PyIndex(p, b + w.uv.value.offset).value).value)
  {
    var ks, ts := Kept(p, w, n), KeptParts(p, w, n);
    var i := ks[j];
    WalkIsKept(acc, p, w, n);
    KeptPartsAt(p, w, n, j);
    forall k | 0 <= k < |ts| ensures Shaped(w, ts[k]) {
      KeptPartsAt(p, w, n, k);
    }
    JoinAllCorner(w, ts, j, v);
    CornerAt(p, i * 3 * w.numInputs, w, 3, v, b);
    ReadCornerValues(p, b, w);
  }

  /** The short-stream check (`len(raw_idx) < count * 3 * num_inputs`) is the right one: with
      offsets in `[0, num_inputs)`, a stream at least that long and normal and UV rows at least two
      wide, the walk never raises. */
  lemma {:induction false} LongStreamNeverRaises(acc: Acc, p: seq<int>, w: Layout, n: nat)
    requires w.numInputs >= 1 && |p| >= n * 3 * w.numInputs
    requires 0 <= w.vertexOffset < w.numInputs
    requires w.normal.Some? ==> 0 <= w.normal.value.offset < w.numInputs
                                && forall r | r in w.normal.value.source :: |r| >= 2
    requires w.color.Some? ==> 0 <= w.color.value.offset < w.numInputs
    requires w.uv.Some? ==> 0 <= w.uv.value.offset < w.numInputs
                            && forall r | r in w.uv.value.source :: |r| >= 2
    ensures Walk(acc, p, w, n).Ok?
  {
    if n > 0 {
      TriangleSlotsInStream(n, w.numInputs, |p|);
      LongStreamNeverRaises(acc, p, w, n - 1);
      TriangleReadsInStream(p, (n - 1) * 3 * w.numInputs, w, 3);
    }
  }

  /** The slots of triangle n - 1 end no later than those of the first n triangles. */
  lemma TriangleSlotsInStream(n: nat, k: nat, len: int)
    requires n > 0 && len >= n * 3 * k
    ensures 0 <= (n - 1) * 3 * k && (n - 1) * 3 * k + 3 * k <= len && (n - 1) * 3 * k <= len
  {
    assert n * 3 * k == (n - 1) * 3 * k + 3 * k;
  }

  /** Corner n - 1 of a triangle, for n <= 3, starts inside the triangle's slots. */
  lemma CornerSlotInTriangle(n: nat, k: nat)
    requires 1 <= n <= 3
    ensures 0 <= (n - 1) * k && (n - 1) * k + k <= 3 * k
  {
  }

  /** A corner whose slot lies inside the stream reads without raising. */
  lemma CornerReadsInStream(p: seq<int>, b: int, w: Layout)
    requires 0 <= b && b + w.numInputs <= |p|
    requires 0 <= w.vertexOffset < w.numInputs
    requires w.normal.Some? ==> 0 <= w.normal.value.offset < w.numInputs
                                && forall r | r in w.normal.value.source :: |r| >= 2
    requires w.color.Some? ==> 0 <= w.color.value.offset < w.numInputs
    requires w.uv.Some? ==> 0 <= w.uv.value.offset < w.numInputs
                            && forall r | r in w.uv.value.source :: |r| >= 2
    ensures ReadCorner(p, b, w).Ok?
  {
    if w.normal.Some? {
      var ni := PyIndex(p, b + w.normal.value.offset).value;
      if 0 <= ni < |w.normal.value.source| {
        assert w.normal.value.source[ni] in w.normal.value.source;
      }
    }
    if w.uv.Some? {
      var ti := PyIndex(p, b + w.uv.value.offset).value;
      if 0 <= ti < |w.uv.value.source| {
        assert w.uv.value.source[ti] in w.uv.value.source;
      }
    }
  }

  /** Corners whose slots lie inside the stream read without raising. */
  lemma {:induction false} TriangleReadsInStream(p: seq<int>, base: int, w: Layout, n: nat)
    requires n <= 3 && 0 <= base && base + 3 * w.numInputs <= |p| && w.numInputs >= 1
    requires 0 <= w.vertexOffset < w.numInputs
    requires w.normal.Some? ==> 0 <= w.normal.value.offset < w.numInputs
                                && forall r | r in w.normal.value.source :: |r| >= 2
    requires w.color.Some? ==> 0 <= w.color.value.offset < w.numInputs
    requires w.uv.Some? ==> 0 <= w.uv.value.offset < w.numInputs
                            && forall r | r in w.uv.value.source :: |r| >= 2
    ensures ReadCorners(p, base, w, n).Ok?
  {
    if n > 0 {
      TriangleReadsInStream(p, base, w, n - 1);
      CornerSlotInTriangle(n, w.numInputs);
      CornerReadsInStream(p, base + (n - 1) * w.numInputs, w);
    }
  }


  /** The body of the corner loop: the reads of one corner in the importer's order, where the
      first index outside the stream, normal row narrower than two or UV row narrower than two
      raises. */
  method ReadOneCorner(p: seq<int>, b: int, w: Layout) returns (r: Result<Parts>)
    ensures r == ReadCorner(p, b, w)
  {
    var vi := PyIndex(p, b + w.vertexOffset);
    if vi.Raise? {
      return Raise(vi.error);
    }
    var norm, col, uv := [], [], [];
    if w.normal.Some? {
      var ni := PyIndex(p, b + w.normal.value.offset);
      if ni.Raise? {
        return Raise(ni.error);
      }
      var n := NormalAt(w.normal.value.source, ni.value);
      if n.Raise? {
        return Raise(n.error);
      }
      norm := [n.value];
    }
    if w.color.Some? {
      var ci := PyIndex(p, b + w.color.value.offset);
      if ci.Raise? {
        return Raise(ci.error);
      }
      col := [ColorAt(w.color.value.source, ci.value)];
    }
    if w.uv.Some? {
      var ti := PyIndex(p, b + w.uv.value.offset);
      if ti.Raise? {
        return Raise(ti.error);
      }
      var t := UvAt(w.uv.value.source, ti.value);
      if t.Raise? {
        return Raise(t.error);
      }
      uv := [t.value];
    }
    return Ok(Parts([vi.value], norm, col, uv));
  }

  /** The corner loop `for v in range(3)` of one triangle. */
  method ReadTriangleCorners(p: seq<int>, base: int, w: Layout) returns (r: Result<Parts>)
    ensures r == ReadCorners(p, base, w, 3)
  {
    var triVertices, triUv, triCol, triNorm := [], [], [], [];
    var v := 0;
    while v < 3
      invariant 0 <= v <= 3
      invariant ReadCorners(p, base, w, v) == Ok(Parts(triVertices, triNorm, triCol, triUv))
    {
      var b := base + v * w.numInputs;
      CornersSnoc(p, base, w, v, b);
      var corner := ReadOneCorner(p, b, w);
      if corner.Raise? {
        CornersRaiseIsFinal(p, base, w, v + 1, 3);
        return Raise(corner.error);
      }
      triVertices := triVertices + corner.value.vertices;
      triNorm := triNorm + corner.value.norms;
      triCol := triCol + corner.value.cols;
      triUv := triUv + corner.value.uvs;
      v := v + 1;
    }
    return Ok(Parts(triVertices, triNorm, triCol, triUv));
  }

  /** The triangle loop `for i_tri in range(count)` of one block, appending to the
      accumulators. */
  method WalkTriangles(acc: Acc, p: seq<int>, count: int, w: Layout) returns (r: Result<Acc>)
    ensures r == Walk(acc, p, w, TriangleCount(count))
  {
    var n := TriangleCount(count);
    var faces, cornerNorms, cornerCols, cornerUvs := acc.faces, acc.norms, acc.cols, acc.uvs;
    var iTri := 0;
    while iTri < n
      invariant 0 <= iTri <= n
      invariant Walk(acc, p, w, iTri) == Ok(Acc(faces, cornerNorms, cornerCols, cornerUvs))
    {
      var base := iTri * 3 * w.numInputs;
      var tri := ReadTriangleCorners(p, base, w);
      assert Walk(acc, p, w, iTri + 1) == WalkNext(Walk(acc, p, w, iTri), tri);
      if tri.Raise? {
        WalkRaiseIsFinal(acc, p, w, iTri + 1, n);
        return Raise(tri.error);
      }
      if !Degenerate(tri.value.vertices) {
        faces := faces + [tri.value.vertices];
        cornerNorms := cornerNorms + tri.value.norms;
        cornerCols := cornerCols + tri.value.cols;
        cornerUvs := cornerUvs + tri.value.uvs;
      }
      iTri := iTri + 1;
    }
    return Ok(Acc(faces, cornerNorms, cornerCols, cornerUvs));
  }
}
