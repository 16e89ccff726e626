/**
 * Faces of an OBJ mesh: the `Face` record the loader stores, the unsigned
 * decrement its constructor applies to every one-based index, and the
 * reading of one `f` line in each of the four grammar variants, with the
 * index checks (`Assertion`) in the order the loader makes them.
 */
module ObjFace {
  import opened Wrappers
  import opened ObjText

  /** Everything that aborts a load; each stands for an exception of the original. */
  datatype LoadError =
    | IndexOutOfBounds(path: string, row: nat, col: nat, lineNo: nat)  // thrown by Assertion
    | MissingToken      // IndexOutOfRangeException: a line holds fewer tokens than are read
    | EndOfStream       // NullReferenceException: ReadLine returned null
    | EmptyGroupLine    // ArgumentOutOfRangeException: Remove(0, 1) on an empty `g` line
    | NoCurrentGroup    // NullReferenceException: no group was started yet
    | FileNotFound(file: string)
    | LibraryNotFound(file: string)

  // ---------------------------------------------------------------------
  // Unsigned decrement
  // ---------------------------------------------------------------------

  /** `x - 1` in uint arithmetic: 0 wraps around to UIntMax. */
  function Dec(x: nat): (r: nat)
    requires x <= UIntMax
    ensures r <= UIntMax
    ensures (r + 1) % (UIntMax + 1) == x
    ensures x == 0 ==> r == UIntMax
  {
    if x == 0 then UIntMax else x - 1
  }

  predicate InRange(xs: seq<nat>)
  {
    forall j :: 0 <= j < |xs| ==> xs[j] <= UIntMax
  }

  function DecAll(xs: seq<nat>): (r: seq<nat>)
    requires InRange(xs)
    ensures |r| == |xs| && InRange(r)
    ensures forall j :: 0 <= j < |xs| ==> (r[j] + 1) % (UIntMax + 1) == xs[j]
  {
    seq(|xs|, j requires 0 <= j < |xs| => Dec(xs[j]))
  }

  // ---------------------------------------------------------------------
  // Face
  // ---------------------------------------------------------------------

  /** A triangle or quad: zero-based pool indices, the texture-coordinate and
      normal arrays absent (null) when the face line did not carry them. */
  datatype Face = Face(vertIdx: seq<nat>, texCoordIdx: Option<seq<nat>>,
                       normalIdx: Option<seq<nat>>, isQuad: bool)

  /** The `uint[3][]` handed to the Face constructor: one-based position,
      texture-coordinate and normal indices, the last two possibly null. */
  datatype RawFace = RawFace(v: seq<nat>, t: Option<seq<nat>>, n: Option<seq<nat>>)

  /** What every caller of the constructor supplies: 3 or 4 position indices
      and, where present, as many texture-coordinate and normal indices. */
  predicate Shaped(d: RawFace)
  {
    && (|d.v| == 3 || |d.v| == 4) && InRange(d.v)
    && (d.t.Some? ==> |d.t.value| == |d.v| && InRange(d.t.value))
    && (d.n.Some? ==> |d.n.value| == |d.v| && InRange(d.n.value))
  }

  /** The Face constructor: a quad exactly when four positions are given, and
      each stored index is its source index minus one, modulo 2^32. */
  function NewFace(d: RawFace): (f: Face)
    requires Shaped(d)
    ensures f.isQuad <==> |d.v| == 4
    ensures |f.vertIdx| == |d.v| && InRange(f.vertIdx)
    ensures forall j :: 0 <= j < |d.v| ==> (f.vertIdx[j] + 1) % (UIntMax + 1) == d.v[j]
    ensures f.texCoordIdx.Some? <==> d.t.Some?
    ensures f.texCoordIdx.Some? ==> |f.texCoordIdx.value| == |d.v| && InRange(f.texCoordIdx.value)
    ensures f.texCoordIdx.Some? ==>
      forall j :: 0 <= j < |d.v| ==> (f.texCoordIdx.value[j] + 1) % (UIntMax + 1) == d.t.value[j]
    ensures f.normalIdx.Some? <==> d.n.Some?
    ensures f.normalIdx.Some? ==> |f.normalIdx.value| == |d.v| && InRange(f.normalIdx.value)
    ensures f.normalIdx.Some? ==>
      forall j :: 0 <= j < |d.v| ==> (f.normalIdx.value[j] + 1) % (UIntMax + 1) == d.n.value[j]
  {
    Face(DecAll(d.v),
         if d.t.Some? then Some(DecAll(d.t.value)) else None,
         if d.n.Some? then Some(DecAll(d.n.value)) else None,
         |d.v| == 4)
  }

  /** How many corners the Face will have. */
  function Corners(f: Face): nat
  {
    if f.isQuad then 4 else 3
  }

  // ---------------------------------------------------------------------
  // The four `f` line grammars
  // ---------------------------------------------------------------------

  /** Chosen from the HasTexCoords/HasNormals flags as they stand at the line. */
  datatype Variant = Positions | PositionsTexCoords | PositionsNormals | PositionsTexCoordsNormals

  function VariantOf(hasTexCoords: bool, hasNormals: bool): Variant
  {
    if hasTexCoords && hasNormals then PositionsTexCoordsNormals
    else if hasTexCoords then PositionsTexCoords
    else if hasNormals then PositionsNormals
    else Positions
  }

  predicate ReadsTexCoords(v: Variant) { v == PositionsTexCoords || v == PositionsTexCoordsNormals }

  predicate ReadsNormals(v: Variant) { v == PositionsNormals || v == PositionsTexCoordsNormals }

  /** Tokens per corner in the variant's grammar (`1//1` splits into two). */
  function Stride(v: Variant): nat
  {
    match v
    case Positions => 1
    case PositionsTexCoords => 2
    case PositionsNormals => 2
    case PositionsTexCoordsNormals => 3
  }

  function NormalOffset(v: Variant): nat
  {
    if v == PositionsTexCoordsNormals then 2 else 1
  }

  /** Every variant computes `faceSize = s.Length / 3` and reads a quad
      exactly when that is 4, a triangle otherwise. */
  function CornerCount(tokens: seq<string>): nat
  {
    if |tokens| / 3 == 4 then 4 else 3
  }

  /** The parsed one-based indices at positions offset, offset + stride, ... */
  function Column(tokens: seq<string>, stride: nat, offset: nat, n: nat): (c: seq<nat>)
    requires forall j :: 0 <= j < n ==> stride * j + offset < |tokens|
    ensures |c| == n && InRange(c)
  {
    seq(n, j requires 0 <= j < n => ParseUInt(tokens[stride * j + offset]))
  }

  /** Every corner's tokens lie before the last corner's. */
  lemma ScaledAllBelow(k: nat, n: nat)
    ensures forall j :: 0 <= j < n ==> k * j <= k * (n - 1)
  {
  }

  /** The `iTemp` array a face line fills, or None when a token it reads is
      missing: one column per attribute kind the variant reads, a corner per
      stride of tokens. */
  function RawFromTokens(v: Variant, tokens: seq<string>): (r: Option<RawFace>)
    ensures r.Some? <==> |tokens| >= Stride(v) * CornerCount(tokens)
    ensures r.Some? ==> Shaped(r.value) && |r.value.v| == CornerCount(tokens)
    ensures r.Some? ==> (r.value.t.Some? <==> ReadsTexCoords(v)) && (r.value.n.Some? <==> ReadsNormals(v))
    ensures r.Some? ==> forall j :: 0 <= j < |r.value.v| ==> r.value.v[j] == ParseUInt(tokens[Stride(v) * j])
  {
    var n := CornerCount(tokens);
    var k := Stride(v);
    if |tokens| < k * n then None
    else
      assert k * (n - 1) + k - 1 < |tokens|;
      ScaledAllBelow(k, n);
      Some(RawFace(Column(tokens, k, 0, n),
                   if ReadsTexCoords(v) then Some(Column(tokens, k, 1, n)) else None,
                   if ReadsNormals(v) then Some(Column(tokens, k, NormalOffset(v), n)) else None))
  }

  /** Which tokens fill the texture-coordinate and normal columns: corner j's
      texture coordinate follows its position, and its normal comes after the
      texture coordinate in `v/t/n` and straight after the position in `v//n`. */
  lemma RawFromTokensColumns(v: Variant, tokens: seq<string>)
    requires RawFromTokens(v, tokens).Some?
    ensures var r := RawFromTokens(v, tokens).value;
      && (r.t.Some? ==> forall j :: 0 <= j < |r.v| ==> r.t.value[j] == ParseUInt(tokens[Stride(v) * j + 1]))
      && (r.n.Some? ==> forall j :: 0 <= j < |r.v| ==> r.n.value[j] == ParseUInt(tokens[Stride(v) * j + NormalOffset(v)]))
  {
    ScaledAllBelow(Stride(v), CornerCount(tokens));
  }

  /** One call `Assertion(row, col, lineNumber)`. */
  datatype Check = Check(row: nat, col: nat)

  /** Assertion: the load fails exactly when the decremented index exceeds the
      pool size it is compared with.  An index equal to the size is let through. */
  function Assertion(path: string, c: Check, lineNo: nat): (r: Option<LoadError>)
    ensures r.Some? <==> c.row > c.col
    ensures r.Some? ==> r.value == IndexOutOfBounds(path, c.row, c.col, lineNo)
  {
    if c.row > c.col then Some(IndexOutOfBounds(path, c.row, c.col, lineNo)) else None
  }

  function Against(rows: seq<nat>, col: nat): (cs: seq<Check>)
    ensures |cs| == |rows|
    ensures forall j :: 0 <= j < |rows| ==> cs[j] == Check(rows[j], col)
  {
    seq(|rows|, j requires 0 <= j < |rows| => Check(rows[j], col))
  }

  /** Checks of a texture-coordinate or normal column: the first three against
      the column's own pool, the fourth against `fourthCol` (lines 316 and 358
      compare it with the position pool). */
  function ColumnChecks(rows: seq<nat>, col: nat, fourthCol: nat): (cs: seq<Check>)
    requires |rows| == 3 || |rows| == 4
  {
    Against(rows[..3], col) + if |rows| == 4 then [Check(rows[3], fourthCol)] else []
  }

  /** The Assertion calls of a face line, in the order the loader makes them. */
  function Checks(v: Variant, d: RawFace, nV: nat, nT: nat, nN: nat): seq<Check>
    requires Shaped(d)
  {
    var full := v == PositionsTexCoordsNormals;
    Against(DecAll(d.v), nV)
    + (if d.t.Some? then ColumnChecks(DecAll(d.t.value), nT, if full then nT else nV) else [])
    + (if d.n.Some? then ColumnChecks(DecAll(d.n.value), nN, if full then nN else nV) else [])
  }

  /** No Assertion call of `cs` throws. */
  predicate AllPass(cs: seq<Check>)
  {
    forall j :: 0 <= j < |cs| ==> cs[j].row <= cs[j].col
  }

  /** The first Assertion call that throws. */
  function FirstFailure(path: string, cs: seq<Check>, lineNo: nat): (r: Option<LoadError>)
    ensures r.None? <==> AllPass(cs)
    ensures r.Some? ==> exists j :: 0 <= j < |cs| && cs[j].row > cs[j].col && AllPass(cs[..j]) &&
                                    r.value == IndexOutOfBounds(path, cs[j].row, cs[j].col, lineNo)
  {
    if cs == [] then None
    else match Assertion(path, cs[0], lineNo)
      case Some(e) =>
        assert cs[..0] == [];
        Some(e)
      case None =>
        var r := FirstFailure(path, cs[1..], lineNo);
        if r.None? then None
        else
          var j :| 0 <= j < |cs| - 1 && cs[1..][j].row > cs[1..][j].col && AllPass(cs[1..][..j]) &&
                   r.value == IndexOutOfBounds(path, cs[1..][j].row, cs[1..][j].col, lineNo);
          assert cs[..j + 1] == [cs[0]] + cs[1..][..j];
          assert cs[j + 1] == cs[1..][j];
          r
  }

  /** Reading one `f` line whose tokens are `tokens`, with pools of sizes nV,
      nT, nN, in the grammar variant `v`: the Face to add, or the failure. */
  function FaceLine(v: Variant, tokens: seq<string>, nV: nat, nT: nat, nN: nat,
                    lineNo: nat, path: string): Result<Face, LoadError>
  {
    match RawFromTokens(v, tokens)
    case None => Err(MissingToken)
    case Some(d) =>
      match FirstFailure(path, Checks(v, d, nV, nT, nN), lineNo)
      case Some(e) => Err(e)
      case None => Ok(NewFace(d))
  }

  /** Every stored index is at most the size of the pool it was checked
      against: positions against the position pool; the first three
      texture-coordinate (normal) indices against their pool, the fourth
      against its pool only when the face carries all three kinds and
      against the position pool otherwise. */
  predicate Checked(f: Face, nV: nat, nT: nat, nN: nat)
  {
    && (forall j :: 0 <= j < |f.vertIdx| ==> f.vertIdx[j] <= nV)
    && (f.texCoordIdx.Some? ==> forall j :: 0 <= j < |f.texCoordIdx.value| ==>
          f.texCoordIdx.value[j] <= (if j < 3 || f.normalIdx.Some? then nT else nV))
    && (f.normalIdx.Some? ==> forall j :: 0 <= j < |f.normalIdx.value| ==>
          f.normalIdx.value[j] <= (if j < 3 || f.texCoordIdx.Some? then nN else nV))
  }

  /** A triangle has three corners in every array it carries, a quad four. */
  predicate WellShaped(f: Face)
  {
    && |f.vertIdx| == Corners(f)
    && (f.texCoordIdx.Some? ==> |f.texCoordIdx.value| == Corners(f))
    && (f.normalIdx.Some? ==> |f.normalIdx.value| == Corners(f))
  }

  /** The face as the grammar variant lays it out: arrays present exactly for
      the attribute kinds the variant reads. */
  predicate ShapedFor(f: Face, v: Variant)
  {
    && WellShaped(f)
    && (f.texCoordIdx.Some? <==> ReadsTexCoords(v))
    && (f.normalIdx.Some? <==> ReadsNormals(v))
  }

  lemma AgainstPass(rows: seq<nat>, col: nat)
    ensures AllPass(Against(rows, col)) <==> forall j :: 0 <= j < |rows| ==> rows[j] <= col
  {
    var cs := Against(rows, col);
    if AllPass(cs) {
      forall j | 0 <= j < |rows| ensures rows[j] <= col {
        assert cs[j] == Check(rows[j], col);
      }
    }
  }

  lemma ColumnPass(rows: seq<nat>, col: nat, fourthCol: nat)
    requires |rows| == 3 || |rows| == 4
    ensures AllPass(ColumnChecks(rows, col, fourthCol))
        <==> forall j :: 0 <= j < |rows| ==> rows[j] <= (if j < 3 then col else fourthCol)
  {
    var cs := ColumnChecks(rows, col, fourthCol);
    assert forall j :: 0 <= j < 3 ==> cs[j] == Check(rows[j], col);
    if |rows| == 4 {
      assert cs[3] == Check(rows[3], fourthCol);
    }
  }

  lemma AllPassAppend(a: seq<Check>, b: seq<Check>)
    ensures AllPass(a + b) <==> AllPass(a) && AllPass(b)
  {
    if AllPass(a + b) {
      forall j | 0 <= j < |a| ensures a[j].row <= a[j].col {
        assert (a + b)[j] == a[j];
      }
      forall j | 0 <= j < |b| ensures b[j].row <= b[j].col {
        assert (a + b)[|a| + j] == b[j];
      }
    }
  }

  /** The Assertion calls of a face line all pass exactly when the face they
      guard satisfies `Checked`. */
  lemma {:induction false} ChecksMeanChecked(v: Variant, d: RawFace, nV: nat, nT: nat, nN: nat)
    requires Shaped(d)
    requires d.t.Some? <==> ReadsTexCoords(v)
    requires d.n.Some? <==> ReadsNormals(v)
    ensures AllPass(Checks(v, d, nV, nT, nN)) <==> Checked(NewFace(d), nV, nT, nN)
  {
    var full := v == PositionsTexCoordsNormals;
    var f := NewFace(d);
    var cv := Against(DecAll(d.v), nV);
    var ct := if d.t.Some? then ColumnChecks(DecAll(d.t.value), nT, if full then nT else nV) else [];
    var cn := if d.n.Some? then ColumnChecks(DecAll(d.n.value), nN, if full then nN else nV) else [];
    AllPassAppend(cv + ct, cn);
    AllPassAppend(cv, ct);
    AgainstPass(DecAll(d.v), nV);
    if d.t.Some? {
      ColumnPass(DecAll(d.t.value), nT, if full then nT else nV);
    }
    if d.n.Some? {
      ColumnPass(DecAll(d.n.value), nN, if full then nN else nV);
    }
  }

  /** A face line succeeds exactly when its tokens are all there and the face
      they describe passes `Checked`, and the face it adds is that face. */
  lemma FaceLineAccepts(v: Variant, tokens: seq<string>, nV: nat, nT: nat, nN: nat,
                        lineNo: nat, path: string)
    ensures var r := FaceLine(v, tokens, nV, nT, nN, lineNo, path);
      && (r.Ok? <==> |tokens| >= Stride(v) * CornerCount(tokens) &&
                     Checked(NewFace(RawFromTokens(v, tokens).value), nV, nT, nN))
      && (r.Ok? ==> r == Ok(NewFace(RawFromTokens(v, tokens).value)))
  {
    var raw := RawFromTokens(v, tokens);
    if raw.Some? {
      ChecksMeanChecked(v, raw.value, nV, nT, nN);
    }
  }

  /** A failing face line is short of tokens, or reports an index that
      really exceeds the size it was compared with. */
  lemma FaceLineErrors(v: Variant, tokens: seq<string>, nV: nat, nT: nat, nN: nat,
                       lineNo: nat, path: string)
    ensures var r := FaceLine(v, tokens, nV, nT, nN, lineNo, path);
      r.Err? ==> r.error == MissingToken || (r.error.IndexOutOfBounds? && r.error.row > r.error.col)
  {
  }

  lemma QuadTokenCount(n: nat)
    ensures n / 3 == 4 <==> 12 <= n <= 14
  {
  }

  /** The face built from a line with enough tokens is laid out as the
      variant says, is a quad exactly when the line has 12 to 14 tokens, and
      stores each source position index minus one. */
  lemma TokensFace(v: Variant, tokens: seq<string>)
    requires RawFromTokens(v, tokens).Some?
    ensures var f := NewFace(RawFromTokens(v, tokens).value);
      && ShapedFor(f, v) && (f.isQuad <==> 12 <= |tokens| <= 14)
      && forall j :: 0 <= j < |f.vertIdx| ==> (f.vertIdx[j] + 1) % (UIntMax + 1) == ParseUInt(tokens[Stride(v) * j])
  {
    QuadTokenCount(|tokens|);
  }

  /** The face a line adds is laid out as the variant says and is a quad
      exactly when the line has 12 to 14 tokens. */
  lemma FaceLineShape(v: Variant, tokens: seq<string>, nV: nat, nT: nat, nN: nat,
                      lineNo: nat, path: string)
    requires FaceLine(v, tokens, nV, nT, nN, lineNo, path).Ok?
    ensures var f := FaceLine(v, tokens, nV, nT, nN, lineNo, path).value;
      ShapedFor(f, v) && (f.isQuad <==> 12 <= |tokens| <= 14)
  {
    FaceLineAccepts(v, tokens, nV, nT, nN, lineNo, path);
    TokensFace(v, tokens);
  }

  /** All three together. */
  lemma FaceLineMeaning(v: Variant, tokens: seq<string>, nV: nat, nT: nat, nN: nat,
                        lineNo: nat, path: string)
    ensures var r := FaceLine(v, tokens, nV, nT, nN, lineNo, path);
      && (r.Ok? <==> |tokens| >= Stride(v) * CornerCount(tokens) &&
                     Checked(NewFace(RawFromTokens(v, tokens).value), nV, nT, nN))
      && (r.Ok? ==> r == Ok(NewFace(RawFromTokens(v, tokens).value)))
      && (r.Ok? ==> ShapedFor(r.value, v) && (r.value.isQuad <==> 12 <= |tokens| <= 14))
      && (r.Err? ==> r.error == MissingToken || (r.error.IndexOutOfBounds? && r.error.row > r.error.col))
  {
    FaceLineAccepts(v, tokens, nV, nT, nN, lineNo, path);
    FaceLineErrors(v, tokens, nV, nT, nN, lineNo, path);
    if FaceLine(v, tokens, nV, nT, nN, lineNo, path).Ok? {
      FaceLineShape(v, tokens, nV, nT, nN, lineNo, path);
    }
  }

  /** With exactly four well-formed corners, only the `v/t/n` grammar
      yields a quad: the others divide 8 or 4 tokens by 3. */
  lemma FourCornersQuadOnlyWithAllThree(v: Variant, tokens: seq<string>, nV: nat, nT: nat, nN: nat,
                                        lineNo: nat, path: string)
    requires |tokens| == 4 * Stride(v)
    requires FaceLine(v, tokens, nV, nT, nN, lineNo, path).Ok?
    ensures FaceLine(v, tokens, nV, nT, nN, lineNo, path).value.isQuad <==> v == PositionsTexCoordsNormals
  {
    FaceLineMeaning(v, tokens, nV, nT, nN, lineNo, path);
  }

  /** A source index of 0 wraps to UIntMax and so always fails the load. */
  lemma ZeroIndexRejected(v: Variant, tokens: seq<string>, nV: nat, nT: nat, nN: nat,
                          lineNo: nat, path: string, j: nat)
    requires nV < UIntMax
    requires j < CornerCount(tokens) && Stride(v) * j < |tokens|
    requires ParseUInt(tokens[Stride(v) * j]) == 0
    ensures FaceLine(v, tokens, nV, nT, nN, lineNo, path).Err?
  {
    FaceLineMeaning(v, tokens, nV, nT, nN, lineNo, path);
    var raw := RawFromTokens(v, tokens);
    if raw.Some? {
      var f := NewFace(raw.value);
      assert raw.value.v[j] == 0;
      assert f.vertIdx[j] == UIntMax;
    }
  }

  // ---------------------------------------------------------------------
  // Single lines
  // ---------------------------------------------------------------------

  lemma ParseDigit(d: nat, token: string)
    requires d < 10 && token == [('0' as int + d) as char]
    ensures ParseUInt(token) == d
  {
    ParseDecimal(d);
  }

  /** The corners of a `v`-only line of three or four tokens that starts
      "1", "2" and the digit `d`. */
  lemma ThreeDigitLine(tokens: seq<string>, d: nat)
    requires 0 < d < 10 && 3 <= |tokens| <= 4
    requires tokens[0] == "1" && tokens[1] == "2" && tokens[2] == [('0' as int + d) as char]
    ensures RawFromTokens(Positions, tokens) == Some(RawFace([1, 2, d], None, None))
  {
    ParseDigit(1, "1");
    ParseDigit(2, "2");
    ParseDigit(d, tokens[2]);
    assert CornerCount(tokens) == 3 && Stride(Positions) == 1;
    var r := RawFromTokens(Positions, tokens).value;
    assert |r.v| == 3 && r.v[0] == 1 && r.v[1] == 2 && r.v[2] == d;
    assert r.v == [1, 2, d] && r.t.None? && r.n.None?;
  }

  /** `f 1 2 3 4` without texture coordinates or normals is a triangle over
      the first three positions: 4 / 3 is 1, not 4. */
  lemma BareFourIndexLineIsTriangle(lineNo: nat, path: string)
    ensures FaceLine(Positions, ["1", "2", "3", "4"], 4, 0, 0, lineNo, path) == Ok(Face([0, 1, 2], None, None, false))
  {
    var tokens := ["1", "2", "3", "4"];
    ThreeDigitLine(tokens, 3);
    var f := Face([0, 1, 2], None, None, false);
    assert NewFace(RawFace([1, 2, 3], None, None)) == f;
    assert Checked(f, 4, 0, 0);
    FaceLineAccepts(Positions, tokens, 4, 0, 0, lineNo, path);
  }

  /** With four positions, index 5 decrements to 4, which equals the pool
      size and is let through. */
  lemma IndexAtPoolSizeAccepted(lineNo: nat, path: string)
    ensures FaceLine(Positions, ["1", "2", "5"], 4, 0, 0, lineNo, path) == Ok(Face([0, 1, 4], None, None, false))
  {
    var tokens := ["1", "2", "5"];
    ThreeDigitLine(tokens, 5);
    var f := Face([0, 1, 4], None, None, false);
    assert NewFace(RawFace([1, 2, 5], None, None)) == f;
    assert Checked(f, 4, 0, 0);
    FaceLineAccepts(Positions, tokens, 4, 0, 0, lineNo, path);
  }

  /** Index 6 decrements to 5, one past the pool of four, and fails the load
      with both numbers and the line number. */
  lemma IndexPastPoolSizeRejected(lineNo: nat, path: string)
    ensures FaceLine(Positions, ["1", "2", "6"], 4, 0, 0, lineNo, path) == Err(IndexOutOfBounds(path, 5, 4, lineNo))
  {
    var tokens := ["1", "2", "6"];
    ThreeDigitLine(tokens, 6);
    var d := RawFace([1, 2, 6], None, None);
    assert DecAll(d.v) == [0, 1, 5];
    var cs := Checks(Positions, d, 4, 0, 0);
    assert cs == Against([0, 1, 5], 4) == [Check(0, 4), Check(1, 4), Check(5, 4)];
    assert FirstFailure(path, cs[2..], lineNo) == Some(IndexOutOfBounds(path, 5, 4, lineNo));
    assert FirstFailure(path, cs[1..], lineNo) == Some(IndexOutOfBounds(path, 5, 4, lineNo));
  }
}
