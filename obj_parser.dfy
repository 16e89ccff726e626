/**
 * The OBJ loader's main loop as a function on values.  Each iteration reads
 * one character, dispatches on it (`g`, `v`, `f`, `m`, `u`, a line feed, or
 * anything else) and hands the rest of the line to the matching handler;
 * `StepLine` is one iteration and `ParseFrom` the whole loop.  The
 * imperative loader in module ObjModel is proved to compute exactly this.
 */
module ObjParser {
  import opened Wrappers
  import opened ObjText
  import opened ObjFace

  /** One entry of a coordinate pool: the tokens the loader hands to
      float.TryParse.  Their numeric values are not modelled. */
  datatype Attr = Attr(fields: seq<string>)

  /** A material of an external library: its name and an opaque identity. */
  datatype Material = Material(matName: string, id: nat)

  /** The value of a FaceGroup object. */
  datatype GroupV = GroupV(name: string, mat: Option<Material>, faces: seq<Face>)

  /** The parts of an OBJModel that loading builds; `cur` is the position of
      `currFaceGroup` in the group list, None while it is null. */
  datatype ModelV = ModelV(vertices: seq<Attr>, texCoords: seq<Attr>, normals: seq<Attr>,
                           groups: seq<GroupV>, cur: Option<nat>,
                           hasTexCoords: bool, hasNormals: bool)

  /** The loop's state: the model plus the locals MaterialList and lineNumber. */
  datatype Scan = Scan(model: ModelV, materials: Option<seq<Material>>, lineNumber: nat)

  /** What a load needs besides the text: the model's own path (for error
      messages), the directory prefix for `mtllib`, and the material
      libraries that Material.ParseMaterials can read, by full path. */
  datatype Context = Context(path: string, relativePath: string,
                             libraries: map<string, seq<Material>>)

  const EmptyModel := ModelV([], [], [], [], None, false, false)

  /** The `separators` array: a space and a slash (a tab is not one). */
  const Separators: set<char> := {' ', '/'}

  /** `usemtl` lines: the dispatch reads `u`, then six more characters are skipped. */
  const UsemtlSkip: nat := 6

  predicate HasCurrent(m: ModelV)
  {
    m.cur.Some? && m.cur.value < |m.groups|
  }

  // ---------------------------------------------------------------------
  // Group and face list updates (FaceGroup.AddFace, SetMaterial, `g`)
  // ---------------------------------------------------------------------

  /** `new FaceGroup(name)`, appended and made current. */
  function NewGroup(m: ModelV, name: string): ModelV
  {
    m.(groups := m.groups + [GroupV(name, None, [])], cur := Some(|m.groups|))
  }

  function AddFaceToCurrent(m: ModelV, f: Face): ModelV
    requires HasCurrent(m)
  {
    var k := m.cur.value;
    m.(groups := m.groups[k := m.groups[k].(faces := m.groups[k].faces + [f])])
  }

  function SetCurrentMaterial(m: ModelV, mat: Material): ModelV
    requires HasCurrent(m)
  {
    var k := m.cur.value;
    m.(groups := m.groups[k := m.groups[k].(mat := Some(mat))])
  }

  // ---------------------------------------------------------------------
  // The line handlers; `p` is the position just after the dispatch character
  // ---------------------------------------------------------------------

  /** `g name`: the rest of the line minus its first character is the name;
      `default` is ignored, anything else starts a new current group. */
  function GroupLine(m: ModelV, text: string, p: nat): Result<(ModelV, nat), LoadError>
    requires p <= |text|
  {
    var rl := ReadLine(text, p);
    if rl.line.None? then Err(EndOfStream)
    else if |rl.line.value| == 0 then Err(EmptyGroupLine)
    else
      var name := rl.line.value[1..];
      if name == "default" then Ok((m, rl.next)) else Ok((NewGroup(m, name), rl.next))
  }

  /** The rest of a `v`, `vt` or `vn` line, of which the first `k` tokens are read. */
  function AttrLine(text: string, q: nat, k: nat): Result<(Attr, nat), LoadError>
    requires q <= |text|
  {
    var rl := ReadLine(text, q);
    if rl.line.None? then Err(EndOfStream)
    else
      var s := Split(rl.line.value, Separators);
      if |s| < k then Err(MissingToken) else Ok((Attr(s[..k]), rl.next))
  }

  /** `v`: the next character tells a position (space or tab), a texture
      coordinate (`t`) or a normal (`n`); anything else, including the end of
      the stream, discards the rest of the line after that character. */
  function VertexLine(m: ModelV, text: string, p: nat): Result<(ModelV, nat), LoadError>
    requires p <= |text|
  {
    if p == |text| then Ok((m, p))
    else
      var c := text[p];
      if c == ' ' || c == '\t' then
        match AttrLine(text, p + 1, 3)
        case Err(e) => Err(e)
        case Ok((a, q)) => Ok((m.(vertices := m.vertices + [a]), q))
      else if c == 't' then
        match AttrLine(text, p + 1, 2)
        case Err(e) => Err(e)
        case Ok((a, q)) => Ok((m.(texCoords := m.texCoords + [a], hasTexCoords := true), q))
      else if c == 'n' then
        match AttrLine(text, p + 1, 3)
        case Err(e) => Err(e)
        case Ok((a, q)) => Ok((m.(normals := m.normals + [a], hasNormals := true), q))
      else Ok((m, ReadLine(text, p + 1).next))
  }

  /** `f`: the face in the grammar the flags select, added to the current group. */
  function FaceLineAt(m: ModelV, text: string, p: nat, lineNo: nat, path: string)
    : Result<(ModelV, nat), LoadError>
    requires p <= |text|
  {
    var rl := ReadLine(text, p);
    if rl.line.None? then Err(EndOfStream)
    else
      var tokens := Split(rl.line.value, Separators);
      match FaceLine(VariantOf(m.hasTexCoords, m.hasNormals), tokens,
                     |m.vertices|, |m.texCoords|, |m.normals|, lineNo, path)
      case Err(e) => Err(e)
      case Ok(f) => if HasCurrent(m) then Ok((AddFaceToCurrent(m, f), rl.next)) else Err(NoCurrentGroup)
  }

  /** `mtllib file`: the second token, prefixed with the model's directory,
      names the library that becomes the current material list. */
  function MtllibLine(text: string, p: nat, ctx: Context): Result<(seq<Material>, nat), LoadError>
    requires p <= |text|
  {
    var rl := ReadLine(text, p);
    if rl.line.None? then Err(EndOfStream)
    else
      var s := Split(rl.line.value, Separators);
      if |s| < 2 then Err(MissingToken)
      else
        var file := ctx.relativePath + s[1];
        if file in ctx.libraries then Ok((ctx.libraries[file], rl.next)) else Err(LibraryNotFound(file))
  }

  /** The position of the last material called `name`. */
  function LastMatch(list: seq<Material>, name: string): (r: Option<nat>)
    ensures r.Some? ==> r.value < |list| && list[r.value].matName == name
    ensures r.Some? ==> forall j :: r.value < j < |list| ==> list[j].matName != name
    ensures r.None? <==> forall j :: 0 <= j < |list| ==> list[j].matName != name
  {
    if list == [] then None
    else if list[|list| - 1].matName == name then Some(|list| - 1)
    else LastMatch(list[..|list| - 1], name)
  }

  /** The `usemtl` loop over the material list: every exact match is bound
      in turn, so the last one stays bound.  The first token is looked at
      only when the list is non-empty. */
  function UseMaterial(m: ModelV, materials: Option<seq<Material>>, tokens: seq<string>)
    : Result<ModelV, LoadError>
  {
    if materials.None? || |materials.value| == 0 then Ok(m)
    else if |tokens| == 0 then Err(MissingToken)
    else match LastMatch(materials.value, tokens[0])
      case None => Ok(m)
      case Some(i) => if HasCurrent(m) then Ok(SetCurrentMaterial(m, materials.value[i])) else Err(NoCurrentGroup)
  }

  function UsemtlLine(m: ModelV, materials: Option<seq<Material>>, text: string, p: nat)
    : Result<(ModelV, nat), LoadError>
    requires p <= |text|
  {
    var q := if p + UsemtlSkip <= |text| then p + UsemtlSkip else |text|;
    var rl := ReadLine(text, q);
    if rl.line.None? then Err(EndOfStream)
    else
      match UseMaterial(m, materials, Split(rl.line.value, Separators))
      case Err(e) => Err(e)
      case Ok(m') => Ok((m', rl.next))
  }

  function Lift(r: Result<(ModelV, nat), LoadError>, sc: Scan): Result<(Scan, nat), LoadError>
  {
    match r
    case Err(e) => Err(e)
    case Ok((m, q)) => Ok((sc.(model := m), q))
  }

  /** One iteration of the loader's loop, starting at the character at `pos`;
      every iteration that does not fail moves forward and ends by counting
      one more line. */
  function StepLine(sc: Scan, text: string, pos: nat, ctx: Context): (r: Result<(Scan, nat), LoadError>)
    requires pos < |text|
    ensures r.Ok? ==> pos < r.value.1 <= |text| && r.value.0.lineNumber == sc.lineNumber + 1
  {
    var c := text[pos];
    var p := pos + 1;
    var m := sc.model;
    var handled: Result<(Scan, nat), LoadError> :=
      if c == 'g' then Lift(GroupLine(m, text, p), sc)
      else if c == 'v' then Lift(VertexLine(m, text, p), sc)
      else if c == 'f' then Lift(FaceLineAt(m, text, p, sc.lineNumber, ctx.path), sc)
      else if c == 'm' then
        (match MtllibLine(text, p, ctx)
         case Err(e) => Err(e)
         case Ok((ms, q)) => Ok((sc.(materials := Some(ms)), q)))
      else if c == 'u' then Lift(UsemtlLine(m, sc.materials, text, p), sc)
      else if c != '\n' then Ok((sc, ReadLine(text, p).next))
      else Ok((sc, p));
    match handled
    case Err(e) => Err(e)
    case Ok((sc', q)) => Ok((sc'.(lineNumber := sc'.lineNumber + 1), q))
  }

  /** The rest of the loop, from `pos` to the end of the stream. */
  function ParseFrom(sc: Scan, text: string, pos: nat, ctx: Context): Result<Scan, LoadError>
    requires pos <= |text|
    decreases |text| - pos
  {
    if pos == |text| then Ok(sc)
    else match StepLine(sc, text, pos, ctx)
      case Err(e) => Err(e)
      case Ok((sc', q)) => ParseFrom(sc', text, q, ctx)
  }

  /** The whole loop, from the state a load starts in. */
  function Parse(m: ModelV, text: string, ctx: Context): Result<Scan, LoadError>
  {
    ParseFrom(Scan(m, None, 1), text, 0, ctx)
  }

  // ---------------------------------------------------------------------
  // What a single line does
  // ---------------------------------------------------------------------

  /** A `v` line (followed by a space or a tab) appends one position of three
      tokens and changes nothing else. */
  lemma PositionLine(sc: Scan, text: string, pos: nat, ctx: Context)
    requires pos + 1 < |text| && text[pos] == 'v' && (text[pos + 1] == ' ' || text[pos + 1] == '\t')
    requires StepLine(sc, text, pos, ctx).Ok?
    ensures var m := sc.model; var m' := StepLine(sc, text, pos, ctx).value.0.model;
      exists a: Attr :: |a.fields| == 3 && m' == m.(vertices := m.vertices + [a])
  {
    var m := sc.model;
    var a := AttrLine(text, pos + 2, 3).value.0;
    assert StepLine(sc, text, pos, ctx).value.0.model == m.(vertices := m.vertices + [a]);
  }

  /** A `vt` line appends one texture coordinate of two tokens and sets
      HasTexCoords; nothing else changes. */
  lemma TexCoordLine(sc: Scan, text: string, pos: nat, ctx: Context)
    requires pos + 1 < |text| && text[pos] == 'v' && text[pos + 1] == 't'
    requires StepLine(sc, text, pos, ctx).Ok?
    ensures var m := sc.model; var m' := StepLine(sc, text, pos, ctx).value.0.model;
      exists a: Attr :: |a.fields| == 2 && m' == m.(texCoords := m.texCoords + [a], hasTexCoords := true)
  {
    var m := sc.model;
    var a := AttrLine(text, pos + 2, 2).value.0;
    assert StepLine(sc, text, pos, ctx).value.0.model == m.(texCoords := m.texCoords + [a], hasTexCoords := true);
  }

  /** A `vn` line appends one normal of three tokens and sets HasNormals;
      nothing else changes. */
  lemma NormalLine(sc: Scan, text: string, pos: nat, ctx: Context)
    requires pos + 1 < |text| && text[pos] == 'v' && text[pos + 1] == 'n'
    requires StepLine(sc, text, pos, ctx).Ok?
    ensures var m := sc.model; var m' := StepLine(sc, text, pos, ctx).value.0.model;
      exists a: Attr :: |a.fields| == 3 && m' == m.(normals := m.normals + [a], hasNormals := true)
  {
    var m := sc.model;
    var a := AttrLine(text, pos + 2, 3).value.0;
    assert StepLine(sc, text, pos, ctx).value.0.model == m.(normals := m.normals + [a], hasNormals := true);
  }

  /** `g default` changes nothing; any other `g` line appends exactly one
      empty group, without a material, and makes it current. */
  lemma GroupLineEffect(sc: Scan, text: string, pos: nat, ctx: Context)
    requires pos < |text| && text[pos] == 'g'
    requires StepLine(sc, text, pos, ctx).Ok?
    ensures var line := ReadLine(text, pos + 1).line;
      && line.Some? && |line.value| > 0
      && var m := sc.model; var m' := StepLine(sc, text, pos, ctx).value.0.model;
         if line.value[1..] == "default" then m' == m
         else m'.groups == m.groups + [GroupV(line.value[1..], None, [])] && m'.cur == Some(|m.groups|) &&
              m'.vertices == m.vertices && m'.texCoords == m.texCoords && m'.normals == m.normals &&
              m'.hasTexCoords == m.hasTexCoords && m'.hasNormals == m.hasNormals
  {
  }

  /** An `f` line appends one face to the current group and to no other; the
      face carries exactly the index arrays the flags at that line select,
      and every pool and flag is left alone. */
  lemma FaceLineEffect(sc: Scan, text: string, pos: nat, ctx: Context)
    requires pos < |text| && text[pos] == 'f'
    requires StepLine(sc, text, pos, ctx).Ok?
    ensures var m := sc.model; var m' := StepLine(sc, text, pos, ctx).value.0.model;
      && HasCurrent(m) && |m'.groups| == |m.groups| && m'.cur == m.cur
      && (exists f :: ShapedFor(f, VariantOf(m.hasTexCoords, m.hasNormals)) &&
                      Checked(f, |m.vertices|, |m.texCoords|, |m.normals|) &&
                      m'.groups[m.cur.value] == m.groups[m.cur.value].(faces := m.groups[m.cur.value].faces + [f]))
      && (forall i :: 0 <= i < |m.groups| && i != m.cur.value ==> m'.groups[i] == m.groups[i])
      && m'.vertices == m.vertices && m'.texCoords == m.texCoords && m'.normals == m.normals
      && m'.hasTexCoords == m.hasTexCoords && m'.hasNormals == m.hasNormals
  {
    var m := sc.model;
    var line := ReadLine(text, pos + 1).line.value;
    var tokens := Split(line, Separators);
    FaceLineMeaning(VariantOf(m.hasTexCoords, m.hasNormals), tokens, |m.vertices|, |m.texCoords|, |m.normals|,
                    sc.lineNumber, ctx.path);
  }

  /** `usemtl name` binds the last material of the current list called
      exactly `name` to the current group; with no list, an empty list or no
      such material it changes nothing.  No other group changes. */
  lemma UsemtlEffect(sc: Scan, text: string, pos: nat, ctx: Context)
    requires pos < |text| && text[pos] == 'u'
    requires StepLine(sc, text, pos, ctx).Ok?
    ensures var m := sc.model; var m' := StepLine(sc, text, pos, ctx).value.0.model;
      var q := if pos + 1 + UsemtlSkip <= |text| then pos + 1 + UsemtlSkip else |text|;
      var tokens := Split(ReadLine(text, q).line.value, Separators);
      && ReadLine(text, q).line.Some?
      && m'.vertices == m.vertices && m'.texCoords == m.texCoords && m'.normals == m.normals
      && m'.cur == m.cur && |m'.groups| == |m.groups|
      && if sc.materials.None? || |sc.materials.value| == 0 || LastMatch(sc.materials.value, tokens[0]).None?
         then m' == m
         else HasCurrent(m) &&
              m'.groups[m.cur.value].mat == Some(sc.materials.value[LastMatch(sc.materials.value, tokens[0]).value]) &&
              m'.groups[m.cur.value].faces == m.groups[m.cur.value].faces &&
              forall i :: 0 <= i < |m.groups| && i != m.cur.value ==> m'.groups[i] == m.groups[i]
  {
  }

  /** `mtllib file` resolves `file`, the line's second token, against the
      model's directory and makes the library found there the current
      material list; the model is untouched.  The line fails at the end of
      the stream, with fewer than two tokens, or when no library exists at
      the resolved path. */
  lemma MtllibLineEffect(sc: Scan, text: string, pos: nat, ctx: Context)
    requires pos < |text| && text[pos] == 'm'
    ensures var rl := ReadLine(text, pos + 1);
      var r := StepLine(sc, text, pos, ctx);
      if rl.line.None? then r == Err(EndOfStream)
      else
        var s := Split(rl.line.value, Separators);
        if |s| < 2 then r == Err(MissingToken)
        else
          var file := ctx.relativePath + s[1];
          if file !in ctx.libraries then r == Err(LibraryNotFound(file))
          else r == Ok((Scan(sc.model, Some(ctx.libraries[file]), sc.lineNumber + 1), rl.next))
  {
  }

  // ---------------------------------------------------------------------
  // What the whole loop preserves
  // ---------------------------------------------------------------------

  /** Loading only ever adds: every pool of `a` is a prefix of the same pool of
      `b`, a flag once set stays set, groups are never removed or renamed and
      their face lists only grow. */
  predicate Grows(a: ModelV, b: ModelV)
  {
    && a.vertices <= b.vertices && a.texCoords <= b.texCoords && a.normals <= b.normals
    && (a.hasTexCoords ==> b.hasTexCoords) && (a.hasNormals ==> b.hasNormals)
    && |a.groups| <= |b.groups|
    && forall i :: 0 <= i < |a.groups| ==>
         b.groups[i].name == a.groups[i].name && a.groups[i].faces <= b.groups[i].faces
  }

  lemma GrowsTransitive(a: ModelV, b: ModelV, c: ModelV)
    requires Grows(a, b) && Grows(b, c)
    ensures Grows(a, c)
  {
  }

  /** The model invariant: the current group, when set, is one of the groups;
      every face is well shaped and passes its checks against the pools. */
  predicate Invariant(m: ModelV)
  {
    && (m.cur.Some? ==> m.cur.value < |m.groups|)
    && forall i, j :: 0 <= i < |m.groups| && 0 <= j < |m.groups[i].faces| ==>
         WellShaped(m.groups[i].faces[j]) &&
         Checked(m.groups[i].faces[j], |m.vertices|, |m.texCoords|, |m.normals|)
  }

  lemma CheckedMonotone(f: Face, nV: nat, nT: nat, nN: nat, nV': nat, nT': nat, nN': nat)
    requires Checked(f, nV, nT, nN) && nV <= nV' && nT <= nT' && nN <= nN'
    ensures Checked(f, nV', nT', nN')
  {
  }

  /** Adding to the pools keeps every face's checks satisfied. */
  lemma PoolsGrowKeepInvariant(m: ModelV, m': ModelV)
    requires Invariant(m)
    requires m'.groups == m.groups && m'.cur == m.cur
    requires |m.vertices| <= |m'.vertices| && |m.texCoords| <= |m'.texCoords| && |m.normals| <= |m'.normals|
    ensures Invariant(m')
  {
    forall i, j | 0 <= i < |m.groups| && 0 <= j < |m.groups[i].faces|
      ensures Checked(m.groups[i].faces[j], |m'.vertices|, |m'.texCoords|, |m'.normals|)
    {
      CheckedMonotone(m.groups[i].faces[j], |m.vertices|, |m.texCoords|, |m.normals|,
                      |m'.vertices|, |m'.texCoords|, |m'.normals|);
    }
  }

  lemma VertexLineKeeps(m: ModelV, text: string, p: nat)
    requires p <= |text| && Invariant(m)
    requires VertexLine(m, text, p).Ok?
    ensures Invariant(VertexLine(m, text, p).value.0) && Grows(m, VertexLine(m, text, p).value.0)
  {
    PoolsGrowKeepInvariant(m, VertexLine(m, text, p).value.0);
  }

  lemma FaceLineKeeps(m: ModelV, text: string, p: nat, lineNo: nat, path: string)
    requires p <= |text| && Invariant(m)
    requires FaceLineAt(m, text, p, lineNo, path).Ok?
    ensures Invariant(FaceLineAt(m, text, p, lineNo, path).value.0)
    ensures Grows(m, FaceLineAt(m, text, p, lineNo, path).value.0)
  {
    var v := VariantOf(m.hasTexCoords, m.hasNormals);
    var tokens := Split(ReadLine(text, p).line.value, Separators);
    FaceLineMeaning(v, tokens, |m.vertices|, |m.texCoords|, |m.normals|, lineNo, path);
    var f := FaceLine(v, tokens, |m.vertices|, |m.texCoords|, |m.normals|, lineNo, path).value;
    var m' := AddFaceToCurrent(m, f);
    var k := m.cur.value;
    assert m'.groups[k].faces == m.groups[k].faces + [f];
    forall i, j | 0 <= i < |m'.groups| && 0 <= j < |m'.groups[i].faces|
      ensures WellShaped(m'.groups[i].faces[j]) &&
              Checked(m'.groups[i].faces[j], |m'.vertices|, |m'.texCoords|, |m'.normals|)
    {
      if i == k && j == |m.groups[k].faces| {
        assert m'.groups[i].faces[j] == f;
      } else {
        assert m'.groups[i].faces[j] == m.groups[i].faces[j];
      }
    }
  }

  lemma UsemtlLineKeeps(m: ModelV, materials: Option<seq<Material>>, text: string, p: nat)
    requires p <= |text| && Invariant(m)
    requires UsemtlLine(m, materials, text, p).Ok?
    ensures Invariant(UsemtlLine(m, materials, text, p).value.0)
    ensures Grows(m, UsemtlLine(m, materials, text, p).value.0)
  {
    var m' := UsemtlLine(m, materials, text, p).value.0;
    if m' != m {
      var k := m.cur.value;
      assert forall i :: 0 <= i < |m.groups| ==> m'.groups[i].faces == m.groups[i].faces;
    }
  }

  lemma GroupLineKeeps(m: ModelV, text: string, p: nat)
    requires p <= |text| && Invariant(m)
    requires GroupLine(m, text, p).Ok?
    ensures Invariant(GroupLine(m, text, p).value.0) && Grows(m, GroupLine(m, text, p).value.0)
  {
    var m' := GroupLine(m, text, p).value.0;
    assert forall i :: 0 <= i < |m.groups| ==> m'.groups[i] == m.groups[i];
  }

  /** One iteration keeps the invariant and only adds to the model. */
  lemma StepKeepsInvariant(sc: Scan, text: string, pos: nat, ctx: Context)
    requires pos < |text| && Invariant(sc.model)
    requires StepLine(sc, text, pos, ctx).Ok?
    ensures Invariant(StepLine(sc, text, pos, ctx).value.0.model)
    ensures Grows(sc.model, StepLine(sc, text, pos, ctx).value.0.model)
  {
    var c := text[pos];
    var m := sc.model;
    var m' := StepLine(sc, text, pos, ctx).value.0.model;
    if c == 'g' {
      assert m' == GroupLine(m, text, pos + 1).value.0;
      GroupLineKeeps(m, text, pos + 1);
    } else if c == 'v' {
      assert m' == VertexLine(m, text, pos + 1).value.0;
      VertexLineKeeps(m, text, pos + 1);
    } else if c == 'f' {
      assert m' == FaceLineAt(m, text, pos + 1, sc.lineNumber, ctx.path).value.0;
      FaceLineKeeps(m, text, pos + 1, sc.lineNumber, ctx.path);
    } else if c == 'u' {
      assert m' == UsemtlLine(m, sc.materials, text, pos + 1).value.0;
      UsemtlLineKeeps(m, sc.materials, text, pos + 1);
    } else {
      assert m' == m;
    }
  }

  /** The whole loop keeps the invariant and only adds to the model: pools
      only grow, flags never return to false, groups are never dropped, and
      every face index is at most the final size of the pool it was checked
      against (at most, not below: Assertion lets an index equal to the size
      through). */
  lemma {:induction false} ParseKeepsInvariant(sc: Scan, text: string, pos: nat, ctx: Context)
    requires pos <= |text| && Invariant(sc.model)
    requires ParseFrom(sc, text, pos, ctx).Ok?
    ensures Invariant(ParseFrom(sc, text, pos, ctx).value.model)
    ensures Grows(sc.model, ParseFrom(sc, text, pos, ctx).value.model)
    decreases |text| - pos
  {
    if pos < |text| {
      var (sc', q) := StepLine(sc, text, pos, ctx).value;
      StepKeepsInvariant(sc, text, pos, ctx);
      ParseKeepsInvariant(sc', text, q, ctx);
      GrowsTransitive(sc.model, sc'.model, ParseFrom(sc', text, q, ctx).value.model);
    }
  }

  /** No character pair `v`,`t` anywhere in the text. */
  predicate NoPair(text: string, a: char, b: char)
  {
    forall i :: 0 <= i < |text| - 1 ==> !(text[i] == a && text[i + 1] == b)
  }

  /** No face of the model carries texture-coordinate indices. */
  predicate NoTexCoordFaces(m: ModelV)
  {
    forall i, j :: 0 <= i < |m.groups| && 0 <= j < |m.groups[i].faces| ==> m.groups[i].faces[j].texCoordIdx.None?
  }

  lemma StepWithoutVt(sc: Scan, text: string, pos: nat, ctx: Context)
    requires pos < |text| && NoPair(text, 'v', 't')
    requires !sc.model.hasTexCoords && NoTexCoordFaces(sc.model) && Invariant(sc.model)
    requires StepLine(sc, text, pos, ctx).Ok?
    ensures !StepLine(sc, text, pos, ctx).value.0.model.hasTexCoords
    ensures NoTexCoordFaces(StepLine(sc, text, pos, ctx).value.0.model)
  {
    var m := sc.model;
    var m' := StepLine(sc, text, pos, ctx).value.0.model;
    if text[pos] == 'f' {
      FaceLineEffect(sc, text, pos, ctx);
      var k := m.cur.value;
      forall i, j | 0 <= i < |m'.groups| && 0 <= j < |m'.groups[i].faces|
        ensures m'.groups[i].faces[j].texCoordIdx.None?
      {
        if i == k && j == |m.groups[k].faces| {
          var f :| ShapedFor(f, VariantOf(m.hasTexCoords, m.hasNormals)) &&
            m'.groups[k] == m.groups[k].(faces := m.groups[k].faces + [f]);
          assert m'.groups[i].faces[j] == f;
        } else if i == k {
          assert m'.groups[i].faces[j] == m.groups[i].faces[j];
        }
      }
    } else if text[pos] == 'g' {
      assert forall i :: 0 <= i < |m.groups| ==> m'.groups[i] == m.groups[i];
    } else if text[pos] == 'u' {
      assert forall i :: 0 <= i < |m.groups| ==> m'.groups[i].faces == m.groups[i].faces;
    }
  }

  /** A file without a `vt` line never sets HasTexCoords, so every face is read
      in a grammar without texture coordinates and carries none. */
  lemma {:induction false} WithoutVtNoTexCoords(sc: Scan, text: string, pos: nat, ctx: Context)
    requires pos <= |text| && NoPair(text, 'v', 't')
    requires !sc.model.hasTexCoords && NoTexCoordFaces(sc.model) && Invariant(sc.model)
    requires ParseFrom(sc, text, pos, ctx).Ok?
    ensures !ParseFrom(sc, text, pos, ctx).value.model.hasTexCoords
    ensures NoTexCoordFaces(ParseFrom(sc, text, pos, ctx).value.model)
    decreases |text| - pos
  {
    if pos < |text| {
      var (sc', q) := StepLine(sc, text, pos, ctx).value;
      StepWithoutVt(sc, text, pos, ctx);
      StepKeepsInvariant(sc, text, pos, ctx);
      WithoutVtNoTexCoords(sc', text, q, ctx);
    }
  }

  /** No face of the model carries normal indices. */
  predicate NoNormalFaces(m: ModelV)
  {
    forall i, j :: 0 <= i < |m.groups| && 0 <= j < |m.groups[i].faces| ==> m.groups[i].faces[j].normalIdx.None?
  }

  lemma StepWithoutVn(sc: Scan, text: string, pos: nat, ctx: Context)
    requires pos < |text| && NoPair(text, 'v', 'n')
    requires !sc.model.hasNormals && NoNormalFaces(sc.model) && Invariant(sc.model)
    requires StepLine(sc, text, pos, ctx).Ok?
    ensures !StepLine(sc, text, pos, ctx).value.0.model.hasNormals
    ensures NoNormalFaces(StepLine(sc, text, pos, ctx).value.0.model)
  {
    var m := sc.model;
    var m' := StepLine(sc, text, pos, ctx).value.0.model;
    if text[pos] == 'f' {
      FaceLineEffect(sc, text, pos, ctx);
      var k := m.cur.value;
      forall i, j | 0 <= i < |m'.groups| && 0 <= j < |m'.groups[i].faces|
        ensures m'.groups[i].faces[j].normalIdx.None?
      {
        if i == k && j == |m.groups[k].faces| {
          var f :| ShapedFor(f, VariantOf(m.hasTexCoords, m.hasNormals)) &&
            m'.groups[k] == m.groups[k].(faces := m.groups[k].faces + [f]);
          assert m'.groups[i].faces[j] == f;
        } else if i == k {
          assert m'.groups[i].faces[j] == m.groups[i].faces[j];
        }
      }
    } else if text[pos] == 'g' {
      assert forall i :: 0 <= i < |m.groups| ==> m'.groups[i] == m.groups[i];
    } else if text[pos] == 'u' {
      assert forall i :: 0 <= i < |m.groups| ==> m'.groups[i].faces == m.groups[i].faces;
    }
  }

  /** A file without a `vn` line never sets HasNormals, so every face is read
      in a grammar without normals and carries none. */
  lemma {:induction false} WithoutVnNoNormals(sc: Scan, text: string, pos: nat, ctx: Context)
    requires pos <= |text| && NoPair(text, 'v', 'n')
    requires !sc.model.hasNormals && NoNormalFaces(sc.model) && Invariant(sc.model)
    requires ParseFrom(sc, text, pos, ctx).Ok?
    ensures !ParseFrom(sc, text, pos, ctx).value.model.hasNormals
    ensures NoNormalFaces(ParseFrom(sc, text, pos, ctx).value.model)
    decreases |text| - pos
  {
    if pos < |text| {
      var (sc', q) := StepLine(sc, text, pos, ctx).value;
      StepWithoutVn(sc, text, pos, ctx);
      StepKeepsInvariant(sc, text, pos, ctx);
      WithoutVnNoNormals(sc', text, q, ctx);
    }
  }

  /** A file with neither `vt` nor `vn` lines loads with both flags off, and
      every face it holds carries position indices only. */
  lemma WithoutVtVnBareFaces(text: string, ctx: Context)
    requires NoPair(text, 'v', 't') && NoPair(text, 'v', 'n')
    requires Parse(EmptyModel, text, ctx).Ok?
    ensures var m := Parse(EmptyModel, text, ctx).value.model;
      && !m.hasTexCoords && !m.hasNormals
      && forall i, j :: 0 <= i < |m.groups| && 0 <= j < |m.groups[i].faces| ==>
           m.groups[i].faces[j].texCoordIdx.None? && m.groups[i].faces[j].normalIdx.None?
  {
    var sc := Scan(EmptyModel, None, 1);
    WithoutVtNoTexCoords(sc, text, 0, ctx);
    WithoutVnNoNormals(sc, text, 0, ctx);
  }
}
