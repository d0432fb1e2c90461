/** The float-array source decoder (`parse_source_float_array`): a `<source>`'s number list cut
    into rows of `stride` numbers. */
module FloatSource {
  import opened Elements

  /** `[float(v) for v in raw_vals]`: the numbers of the tokens, or None as soon as one token is
      not a number (the ValueError the importer catches). */
  function ParseFloats(tokens: seq<Token>): (floats: Option<seq<real>>)
    ensures floats.Some? <==> forall i | 0 <= i < |tokens| :: tokens[i].Num?
    ensures floats.Some? ==> |floats.value| == |tokens|
    ensures floats.Some? ==> forall i | 0 <= i < |tokens| :: floats.value[i] == tokens[i].value
  {
    if |tokens| == 0 then Some([])
    else if tokens[0].NotNum? then None
    else match ParseFloats(tokens[1..])
      case None => None
      case Some(rest) => Some([tokens[0].value] + rest)
  }

  /** The accessor's `stride` attribute, 3 when the accessor or the attribute is missing. */
  function StrideOf(accessor: Option<Accessor>): int
  {
    match accessor
    case None => 3
    case Some(a) => GetOr(a.stride, 3)
  }

  /** The complete rows of `floats` for a positive stride; a trailing partial row is dropped. */
  function Tuples(floats: seq<real>, stride: int): seq<Tuple>
    requires stride > 0
    decreases |floats|
  {
    if |floats| < stride then [] else [floats[..stride]] + Tuples(floats[stride..], stride)
  }

  /** With stride s and n numbers the row count q satisfies q*s <= n < (q+1)*s, that is
      q == floor(n / s): the remainder left over is shorter than one row. */
  lemma {:induction false} TuplesCount(floats: seq<real>, stride: int)
    requires stride > 0
    ensures |Tuples(floats, stride)| * stride <= |floats| < (|Tuples(floats, stride)| + 1) * stride
    ensures |Tuples(floats, stride)| == |floats| / stride
    decreases |floats|
  {
    var q := |Tuples(floats, stride)|;
    if |floats| >= stride {
      TuplesCount(floats[stride..], stride);
      var q' := |Tuples(floats[stride..], stride)|;
      assert q == q' + 1;
      assert q * stride == q' * stride + stride;
      assert (q + 1) * stride == (q' + 1) * stride + stride;
    }
    DivisionByBounds(|floats|, stride, q);
  }

  /** Row i of the decoded rows is `floats[i*s .. (i+1)*s]`. */
  lemma {:induction false} TuplesAt(floats: seq<real>, stride: int, i: nat)
    requires stride > 0 && i < |Tuples(floats, stride)|
    ensures (i + 1) * stride <= |floats|
    ensures Tuples(floats, stride)[i] == floats[i * stride .. (i + 1) * stride]
    decreases i
  {
    var rest := floats[stride..];
    if i > 0 {
      TuplesAt(rest, stride, i - 1);
      assert i * stride == (i - 1) * stride + stride;
      assert (i + 1) * stride == i * stride + stride;
      assert rest[(i - 1) * stride .. i * stride] == floats[i * stride .. (i + 1) * stride];
    }
  }

  /** Component j of row i is number i*s + j. */
  lemma RowEntry(floats: seq<real>, stride: int, i: nat, j: nat)
    requires stride > 0 && i < |Tuples(floats, stride)| && j < stride
    ensures |Tuples(floats, stride)[i]| == stride && i * stride + j < |floats|
    ensures Tuples(floats, stride)[i][j] == floats[i * stride + j]
  {
    TuplesAt(floats, stride, i);
    assert (i + 1) * stride == i * stride + stride;
  }

  /** q is n / s exactly when q*s <= n < (q+1)*s. */
  lemma DivisionByBounds(n: nat, s: int, q: nat)
    requires s > 0 && q * s <= n < (q + 1) * s
    ensures q == n / s
  {
    var d := n / s;
    if d < q {
      MulMonotone(d + 1, q, s);
      assert false;
    } else if d > q {
      MulMonotone(q + 1, d, s);
      assert false;
    }
  }

  lemma {:induction false} MulMonotone(a: int, b: int, s: int)
    requires a <= b && s >= 0
    ensures a * s <= b * s
    decreases b - a
  {
    if a < b {
      MulMonotone(a, b - 1, s);
      assert b * s == (b - 1) * s + s;
    }
  }

  /** The rows `parse_source_float_array` returns, or the ValueError `range(0, n, 0)` raises
      for a zero stride. */
  function DecodeSource(src: Source): Result<seq<Tuple>>
  {
    if src.floatArray.None? then Ok([])
    else match ParseFloats(src.floatArray.value)
      case None => Ok([])
      case Some(floats) =>
        var stride := StrideOf(src.accessor);
        if stride == 0 then Raise(ValueError)
        else if stride < 0 then Ok([])
        else Ok(Tuples(floats, stride))
  }

  /** The decoder's failure outcomes: missing text or any non-numeric token yields no rows
      (never a partial list), and the only exception is the ValueError of a zero stride over
      fully numeric text. */
  lemma DecodeSourceFailures(src: Source)
    ensures src.floatArray.None? ==> DecodeSource(src) == Ok([])
    ensures (src.floatArray.Some? && exists i | 0 <= i < |src.floatArray.value| :: src.floatArray.value[i].NotNum?)
              ==> DecodeSource(src) == Ok([])
    ensures DecodeSource(src).Raise? <==>
              src.floatArray.Some? && (forall i | 0 <= i < |src.floatArray.value| :: src.floatArray.value[i].Num?)
              && StrideOf(src.accessor) == 0
    ensures DecodeSource(src).Raise? ==> DecodeSource(src).error == ValueError
    ensures StrideOf(src.accessor) < 0 ==> DecodeSource(src) == Ok([])
  {
  }

  /** The decoder's rows: with a positive stride s (3 when the accessor or its attribute is
      missing) and n numeric tokens there are floor(n / s) rows of width s, and row i holds
      numbers i*s .. (i+1)*s - 1 of the array. */
  lemma DecodeSourceRows(src: Source)
    requires src.floatArray.Some? && forall i | 0 <= i < |src.floatArray.value| :: src.floatArray.value[i].Num?
    requires StrideOf(src.accessor) > 0
    ensures DecodeSource(src).Ok?
    ensures var tokens, s, rows := src.floatArray.value, StrideOf(src.accessor), DecodeSource(src).value;
              && |rows| == |tokens| / s
              && (forall i | 0 <= i < |rows| :: |rows[i]| == s)
              && (forall i, j | 0 <= i < |rows| && 0 <= j < s ::
                    i * s + j < |tokens| && rows[i][j] == tokens[i * s + j].value)
  {
    var tokens := src.floatArray.value;
    var floats := ParseFloats(tokens).value;
    var s := StrideOf(src.accessor);
    TuplesCount(floats, s);
    var rows := Tuples(floats, s);
    assert DecodeSource(src) == Ok(rows);
    forall i | 0 <= i < |rows| ensures |rows[i]| == s {
      TuplesAt(floats, s, i);
    }
    forall i, j | 0 <= i < |rows| && 0 <= j < s
      ensures i * s + j < |tokens| && rows[i][j] == tokens[i * s + j].value
    {
      RowEntry(floats, s, i, j);
    }
  }

  /** Without an accessor, or without its `stride` attribute, the numbers are read as triples. */
  lemma DefaultStrideRows(src: Source)
    requires src.accessor.None? || src.accessor.value.stride.None?
    requires src.floatArray.Some? && forall i | 0 <= i < |src.floatArray.value| :: src.floatArray.value[i].Num?
    ensures DecodeSource(src).Ok?
    ensures var tokens, rows := src.floatArray.value, DecodeSource(src).value;
            && |rows| == |tokens| / 3
            && forall i | 0 <= i < |rows| :: rows[i] == [tokens[3 * i].value, tokens[3 * i + 1].value, tokens[3 * i + 2].value]
  {
    DecodeSourceRows(src);
    var tokens, rows := src.floatArray.value, DecodeSource(src).value;
    forall i | 0 <= i < |rows|
      ensures rows[i] == [tokens[3 * i].value, tokens[3 * i + 1].value, tokens[3 * i + 2].value]
    {
      assert rows[i][0] == tokens[i * 3 + 0].value;
      assert rows[i][1] == tokens[i * 3 + 1].value;
      assert rows[i][2] == tokens[i * 3 + 2].value;
    }
  }

  /** Rows of one source always have the same positive width, so a row read back later has at
      least one component. */
  lemma DecodedRowsWidth(src: Source)
    requires DecodeSource(src).Ok?
    ensures forall r | r in DecodeSource(src).value :: |r| == StrideOf(src.accessor) > 0
  {
    var rows := DecodeSource(src).value;
    if |rows| > 0 {
      DecodeSourceRows(src);
      forall r | r in rows ensures |r| == StrideOf(src.accessor) > 0 {
        var i :| 0 <= i < |rows| && rows[i] == r;
      }
    }
  }

  /** `parse_source_float_array`: the loop over `range(0, len(floats), stride)` that appends
      each complete chunk and stops at the first short one. */
  method ParseSourceFloatArray(src: Source) returns (r: Result<seq<Tuple>>)
    ensures r == DecodeSource(src)
  {
    if src.floatArray.None? {
      return Ok([]);
    }
    var parsed := ParseFloats(src.floatArray.value);
    if parsed.None? {
      return Ok([]);
    }
    var floats := parsed.value;
    var stride := StrideOf(src.accessor);
    if stride == 0 {
      return Raise(ValueError);
    }
    var out: seq<Tuple> := [];
    if stride > 0 {
      var i := 0;
      while i < |floats|
        invariant 0 <= i <= |floats|
        invariant out + Tuples(floats[i..], stride) == Tuples(floats, stride)
      {
        var chunk := floats[i .. if i + stride <= |floats| then i + stride else |floats|];
        if |chunk| < stride {
          break;
        }
        assert chunk == floats[i..][..stride];
        assert floats[i..][stride..] == floats[i + stride..];
        assert Tuples(floats[i..], stride) == [chunk] + Tuples(floats[i + stride..], stride);
        out := out + [chunk];
        i := i + stride;
      }
      assert Tuples(floats[i..], stride) == [];
      assert out == Tuples(floats, stride);
    }
    return Ok(out);
  }
}
